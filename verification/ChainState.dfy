/** What the blocks of a history say about accounts, and which blocks a node accepts. */
module ChainState {
  import opened Common
  import opened Ledger
  import opened Chain

  // ----- Which blocks are accepted -----

  /** A body whose hashes are usable, pairwise different and not executed. */
  ghost predicate Usable(body: seq<Tx>, executed: set<Bytes>) {
    (forall tx :: tx in body ==> tx.hash != [] && tx.hash !in executed) && Distinct(Hashes(body))
  }

  /** The block follows the head, is sealed over its own contents, and its root is the head's state with its
      body executed. */
  ghost predicate Follows(head: Block, b: Block, s: Shard, p: Placement) {
    && b.header.number == head.header.number + 1 && b.header.parent == head.hash
    && b.header.txRoot == HashSet(b.body) && b.hash == OfHeader(b.header)
    && b.header.stateRoot == Exec(head.header.stateRoot, b.body, s, p)
  }

  /** Exactly these blocks are accepted; only bloom filter, time and miner are free. */
  lemma AcceptedExactly(st: Store, b: Block, s: Shard, p: Placement)
    ensures Check(st, Some(b), s, p) == Accepted <==> Usable(b.body, st.executed) && Follows(st.current, b, s, p)
  {
    BodyAccepted(b.body, st.executed);
  }

  // ----- Every history -----

  /** The operation appends a block. */
  predicate Appends(st: Store, op: Op, s: Shard) {
    match op
    case Offer(b, p) => Check(st, b, s, p) == Accepted
    case Migrate(_) => true
    case Restart(_) => false
  }

  /** The operations of a history that append a block, in order. */
  function Appending(st: Store, ops: seq<Op>, s: Shard): seq<Op> {
    if ops == [] then [] else
      var (init, op) := (ops[..|ops| - 1], ops[|ops| - 1]);
      Appending(st, init, s) + (if Appends(Run(st, init, s), op, s) then [op] else [])
  }

  function ChainAfter(st: Store, c: seq<Block>, ops: seq<Op>, s: Shard): seq<Block> {
    if ops == [] then c else
      var (init, op) := (ops[..|ops| - 1], ops[|ops| - 1]);
      NextChain(Run(st, init, s), ChainAfter(st, c, init, s), op, s)
  }

  /** The block an operation appends after another: an offered block follows it under the placement it was
      offered at, a migration block holds no transactions and installs its map. */
  ghost predicate Appended(prev: Block, b: Block, op: Op, s: Shard) {
    match op
    case Offer(ob, p) => ob == Some(b) && Follows(prev, b, s, p)
    case Migrate(accounts) =>
      && b.body == [] && b.header.stateRoot == accounts
      && b.header.number == prev.header.number + 1 && b.header.parent == prev.hash
    case Restart(_) => false
  }

  lemma OpAppends(st: Store, c: seq<Block>, op: Op, s: Shard)
    requires Stores(st, c)
    ensures var c' := NextChain(st, c, op, s);
            if Appends(st, op, s) then |c'| == |c| + 1 && c <= c' && Appended(c[|c| - 1], c'[|c|], op, s) else c' == c
  {
    if op.Offer? && op.b.Some? {
      AcceptedExactly(st, op.b.value, s, op.p);
    }
  }

  /** From position n on, each block is what its operation appends after the block before it. */
  ghost predicate BlocksBy(c: seq<Block>, n: nat, how: seq<Op>, s: Shard) {
    0 < n && |c| == n + |how| && forall i :: 0 <= i < |how| ==> Appended(c[n + i - 1], c[n + i], how[i], s)
  }

  lemma OneMoreBlock(c: seq<Block>, n: nat, how: seq<Op>, s: Shard, c': seq<Block>, op: Op)
    requires BlocksBy(c, n, how, s) && c <= c' && |c'| == |c| + 1 && Appended(c[|c| - 1], c'[|c|], op, s)
    ensures BlocksBy(c', n, how + [op], s)
  {
  }

  lemma PossiblePrefix(st: Store, ops: seq<Op>, s: Shard)
    requires ops != [] && PossibleRun(st, ops, s)
    ensures PossibleRun(st, ops[..|ops| - 1], s) && Possible(Run(st, ops[..|ops| - 1], s), ops[|ops| - 1])
  {
    var init := ops[..|ops| - 1];
    forall i | 0 <= i < |init|
      ensures Possible(Run(st, init[..i], s), init[i])
    {
      assert init[..i] == ops[..i];
    }
  }

  /** Over every history, the chain grows by exactly one block per appending operation, and each block is what
      its operation appends after the block before it. */
  lemma {:induction false} HistoryBlocks(st: Store, c: seq<Block>, ops: seq<Op>, s: Shard)
    requires Stores(st, c) && PossibleRun(st, ops, s)
    ensures Stores(Run(st, ops, s), ChainAfter(st, c, ops, s)) && c <= ChainAfter(st, c, ops, s)
    ensures BlocksBy(ChainAfter(st, c, ops, s), |c|, Appending(st, ops, s), s)
  {
    if ops != [] {
      var init, op := ops[..|ops| - 1], ops[|ops| - 1];
      PossiblePrefix(st, ops, s);
      HistoryBlocks(st, c, init, s);
      HistoryStep(Run(st, init, s), ChainAfter(st, c, init, s), |c|, Appending(st, init, s), op, s);
    }
  }

  lemma HistoryStep(st: Store, c: seq<Block>, n: nat, how: seq<Op>, op: Op, s: Shard)
    requires Stores(st, c) && Possible(st, op) && BlocksBy(c, n, how, s)
    ensures var c' := NextChain(st, c, op, s);
            && Stores(Apply(st, op, s), c') && c <= c'
            && BlocksBy(c', n, how + (if Appends(st, op, s) then [op] else []), s)
  {
    ApplyKeeps(st, c, op, s);
    OpAppends(st, c, op, s);
    if Appends(st, op, s) {
      OneMoreBlock(c, n, how, s, NextChain(st, c, op, s), op);
    }
  }

  /** The accounts after a list of appending operations. */
  function StateAfter(root: Accounts, how: seq<Op>, s: Shard): Accounts {
    if how == [] then root else
      var before := StateAfter(root, how[..|how| - 1], s);
      match how[|how| - 1]
      case Offer(b, p) => if b.Some? then Exec(before, b.value.body, s, p) else before
      case Migrate(accounts) => accounts
      case Restart(_) => before
  }

  lemma {:induction false} StateOfChain(c: seq<Block>, n: nat, how: seq<Op>, s: Shard)
    requires BlocksBy(c, n, how, s)
    ensures c[|c| - 1].header.stateRoot == StateAfter(c[n - 1].header.stateRoot, how, s)
  {
    if how != [] {
      var k := |how| - 1;
      StateOfChain(c[..n + k], n, how[..k], s);
      assert Appended(c[n + k - 1], c[n + k], how[k], s);
    }
  }

  /** Over every history, the state at the head is the execution of everything on the chain: each accepted body
      under the placement it was accepted at, each migration by its map. No other state can be committed. */
  lemma HeadIsExecution(ops: seq<Op>, s: Shard)
    requires PossibleRun(NewStore(), ops, s)
    ensures Run(NewStore(), ops, s).current.header.stateRoot == StateAfter(map[], Appending(NewStore(), ops, s), s)
  {
    NewStoreExact();
    HistoryBlocks(NewStore(), [GENESIS], ops, s);
    StateOfChain(ChainAfter(NewStore(), [GENESIS], ops, s), 1, Appending(NewStore(), ops, s), s);
  }

  // ----- Proposed blocks -----

  /** Every transaction of a stored proposal is found by the proof walk. */
  lemma ProposedIsFound(st: Store, c: seq<Block>, packed: seq<Tx>, time: int, miner: int, s: Shard,
                        p: Placement, tx: Tx)
    requires Stores(st, c) && tx in Fresh(packed, st.executed)
    ensures var b := Propose(st, Fresh(packed, st.executed), time, miner, s, p);
            var st' := AddBlock(st, Some(b), s, p);
            && b.header.time == time && b.header.miner == miner
            && Walk(st'.blocks, st'.newest, st'.current.header.number, tx.hash)
  {
    var b := Propose(st, Fresh(packed, st.executed), time, miner, s, p);
    ProposedIsAccepted(st, packed, time, miner, s, p);
    AppendKeeps(st, c, b);
    WalkFinds(Append(st, b).blocks, c + [b], |c|, tx.hash);
    assert (c + [b])[|c|] == b && FoundInBlock(b, tx.hash);
  }
}
