/** The block store of one shard: validation, proposal, the replay index and the proof walk.

    A hash is the header it was computed from, so two headers have the same hash only if they are equal;
    anything else a peer might put in a hash field is an opaque byte string. */
module Chain {
  import opened Common
  import opened Ledger
  import opened Pool

  datatype Hash = OfHeader(header: Header) | Opaque(bytes: Bytes)
  datatype Header = Header(parent: Hash, stateRoot: Accounts, txRoot: set<Bytes>, bloom: set<nat>,
                           number: nat, time: int, miner: int)
  datatype Block = Block(header: Header, body: seq<Tx>, hash: Hash)

  datatype Verdict =
    | Accepted
    | NilBlock
    | WrongHeight
    | WrongParent
    | WrongTxRoot
    | WrongHash
    | EmptyTxHash
    | DuplicateTx
    | ReplayedTx
    | WrongStateRoot

  /** What a node keeps: the stored blocks, the head, and the index of executed hashes. */
  datatype Store = Store(blocks: map<Hash, Block>, newest: Hash, executed: set<Bytes>, current: Block)

  function Bloom(txs: seq<Tx>): set<nat> {
    set i | 0 <= i < |txs| :: ModBytes(txs[i].hash, BLOOM_BITS)
  }

  function Seal(header: Header, body: seq<Tx>): Block {
    Block(header, body, OfHeader(header))
  }

  const GENESIS: Block := Seal(Header(Opaque([]), map[], {}, {}, 0, 0, 0), [])

  function NewStore(): Store {
    Store(map[GENESIS.hash := GENESIS], GENESIS.hash, {}, GENESIS)
  }

  // ----- Validation -----

  /** The first offence in a body, in the order the transactions are looked at. */
  function BodyVerdict(body: seq<Tx>, executed: set<Bytes>): Verdict {
    if body == [] then Accepted else
      var (init, tx) := (body[..|body| - 1], body[|body| - 1]);
      var v := BodyVerdict(init, executed);
      if v != Accepted then v
      else if tx.hash == [] then EmptyTxHash
      else if tx.hash in HashSet(init) then DuplicateTx
      else if tx.hash in executed then ReplayedTx
      else Accepted
  }

  function Check(st: Store, b: Option<Block>, s: Shard, p: Placement): Verdict {
    if b.None? then NilBlock
    else if b.value.header.number != st.current.header.number + 1 then WrongHeight
    else if b.value.header.parent != st.current.hash then WrongParent
    else if HashSet(b.value.body) != b.value.header.txRoot then WrongTxRoot
    else if OfHeader(b.value.header) != b.value.hash then WrongHash
    else if BodyVerdict(b.value.body, st.executed) != Accepted then BodyVerdict(b.value.body, st.executed)
    else if Exec(st.current.header.stateRoot, b.value.body, s, p) != b.value.header.stateRoot then WrongStateRoot
    else Accepted
  }

  /** A body passes exactly when its hashes are usable, pairwise different and not executed yet. */
  lemma {:induction false} BodyAccepted(body: seq<Tx>, executed: set<Bytes>)
    ensures BodyVerdict(body, executed) == Accepted <==>
            && (forall tx :: tx in body ==> tx.hash != [] && tx.hash !in executed)
            && Distinct(Hashes(body))
  {
    if body != [] {
      var init, tx := body[..|body| - 1], body[|body| - 1];
      BodyAccepted(init, executed);
      assert body == init + [tx];
      assert Hashes(body) == Hashes(init) + [tx.hash];
      HashesMember(init, tx.hash);
      DistinctAppend(Hashes(init), tx.hash);
      assert forall t :: t in body <==> t in init || t == tx;
    }
  }

  lemma DistinctAppend(hs: seq<Bytes>, h: Bytes)
    ensures Distinct(hs + [h]) <==> Distinct(hs) && h !in hs
  {
    var all := hs + [h];
    if Distinct(all) {
      assert forall i :: 0 <= i < |hs| ==> all[i] == hs[i] && all[i] != all[|hs|];
    }
  }

  /** The hashes a body adds to the index: the empty one never is. */
  function Indexed(body: seq<Tx>): set<Bytes> {
    HashSet(body) - {[]}
  }

  function Append(st: Store, b: Block): Store {
    Store(st.blocks[b.hash := b], b.hash, st.executed + Indexed(b.body), b)
  }

  function AddBlock(st: Store, b: Option<Block>, s: Shard, p: Placement): Store {
    if Check(st, b, s, p) == Accepted then Append(st, b.value) else st
  }

  // ----- Proposal -----

  function Propose(st: Store, body: seq<Tx>, time: int, miner: int, s: Shard, p: Placement): Block {
    Seal(Header(st.current.hash, Exec(st.current.header.stateRoot, body, s, p), HashSet(body), Bloom(body),
                st.current.header.number + 1, time, miner), body)
  }

  /** Whatever the pool hands out, the block proposed from it is accepted on the same head. */
  lemma ProposedIsAccepted(st: Store, packed: seq<Tx>, time: int, miner: int, s: Shard, p: Placement)
    ensures Check(st, Some(Propose(st, Fresh(packed, st.executed), time, miner, s, p)), s, p) == Accepted
  {
    FreshIsUsable(packed, st.executed);
    BodyAccepted(Fresh(packed, st.executed), st.executed);
  }

  /** The block that installs migrated accounts: no transactions, no validation. */
  function Installing(st: Store, accounts: Accounts): Block {
    Seal(Header(st.current.hash, accounts, {}, {}, st.current.header.number + 1, 0, 0), [])
  }

  function Install(st: Store, accounts: Accounts): Store {
    Append(st, Installing(st, accounts))
  }

  // ----- What every store keeps -----

  function AllHashes(c: seq<Block>): seq<Bytes> {
    if c == [] then [] else AllHashes(c[..|c| - 1]) + Hashes(c[|c| - 1].body)
  }

  ghost predicate Linked(c: seq<Block>) {
    && |c| > 0 && c[0] == GENESIS
    && (forall i :: 0 <= i < |c| ==> c[i].header.number == i && c[i].hash == OfHeader(c[i].header))
    && (forall i :: 0 <= i < |c| ==> HashSet(c[i].body) == c[i].header.txRoot)
    && (forall i :: 0 < i < |c| ==> c[i].header.parent == c[i - 1].hash)
  }

  ghost predicate Holds(blocks: map<Hash, Block>, c: seq<Block>) {
    && (forall i :: 0 <= i < |c| ==> c[i].hash in blocks && blocks[c[i].hash] == c[i])
    && (forall h :: h in blocks ==> blocks[h] in c)
  }

  /** The store holds exactly the linked chain c, whose head is current; no transaction hash occurs twice
      on it; and the index lists exactly the hashes on it. */
  ghost predicate Stores(st: Store, c: seq<Block>) {
    && Linked(c) && Holds(st.blocks, c)
    && st.current == c[|c| - 1] && st.newest == st.current.hash
    && Distinct(AllHashes(c))
    && [] !in st.executed && (forall h :: h in st.executed <==> h in AllHashes(c))
  }

  ghost predicate SomeBodyHas(c: seq<Block>, h: Bytes) {
    exists i :: 0 <= i < |c| && h in Hashes(c[i].body)
  }

  lemma SomeBodyHasAppend(c: seq<Block>, h: Bytes)
    requires c != []
    ensures SomeBodyHas(c, h) <==> SomeBodyHas(c[..|c| - 1], h) || h in Hashes(c[|c| - 1].body)
  {
    var init := c[..|c| - 1];
    if i :| 0 <= i < |init| && h in Hashes(init[i].body) {
      assert h in Hashes(c[i].body);
    }
    if i :| 0 <= i < |c| && h in Hashes(c[i].body) {
      assert i < |init| ==> h in Hashes(init[i].body);
    }
  }

  lemma {:induction false} AllHashesMember(c: seq<Block>, h: Bytes)
    ensures h in AllHashes(c) <==> SomeBodyHas(c, h)
  {
    if c != [] {
      AllHashesMember(c[..|c| - 1], h);
      SomeBodyHasAppend(c, h);
    }
  }

  lemma HashesMember(txs: seq<Tx>, h: Bytes)
    ensures h in Hashes(txs) <==> h in HashSet(txs)
  {
    if h in HashSet(txs) {
      var i :| 0 <= i < |txs| && txs[i].hash == h;
      assert Hashes(txs)[i] == h;
    }
    if h in Hashes(txs) {
      var i :| 0 <= i < |txs| && Hashes(txs)[i] == h;
      assert txs[i] in txs;
    }
  }

  /** Appending a block that extends the head with fresh hashes keeps the store exact. */
  lemma AppendKeeps(st: Store, c: seq<Block>, b: Block)
    requires Stores(st, c)
    requires b.header.number == st.current.header.number + 1 && b.header.parent == st.current.hash
    requires b.hash == OfHeader(b.header) && HashSet(b.body) == b.header.txRoot
    requires BodyVerdict(b.body, st.executed) == Accepted
    ensures Stores(Append(st, b), c + [b])
  {
    IndexAppend(st.executed, c, b);
    HoldsAppend(st.blocks, c, b);
    LinkedAppend(c, b);
  }

  lemma LinkedAppend(c: seq<Block>, b: Block)
    requires Linked(c) && b.header.number == |c| && b.header.parent == c[|c| - 1].hash
    requires b.hash == OfHeader(b.header) && HashSet(b.body) == b.header.txRoot
    ensures Linked(c + [b])
  {
  }

  lemma IndexAppend(executed: set<Bytes>, c: seq<Block>, b: Block)
    requires Distinct(AllHashes(c)) && forall h :: h in executed <==> h in AllHashes(c)
    requires BodyVerdict(b.body, executed) == Accepted
    ensures Distinct(AllHashes(c + [b]))
    ensures forall h :: h in executed + Indexed(b.body) <==> h in AllHashes(c + [b])
  {
    BodyAccepted(b.body, executed);
    assert (c + [b])[..|c|] == c;
    forall h
      ensures h in Hashes(b.body) <==> h in HashSet(b.body)
    {
      HashesMember(b.body, h);
    }
    DistinctConcat(AllHashes(c), Hashes(b.body), b.body, executed);
  }

  lemma DistinctConcat(xs: seq<Bytes>, ys: seq<Bytes>, body: seq<Tx>, executed: set<Bytes>)
    requires Distinct(xs) && Distinct(ys) && ys == Hashes(body)
    requires forall h :: h in xs ==> h in executed
    requires forall tx :: tx in body ==> tx.hash !in executed
    ensures Distinct(xs + ys)
  {
    forall i, j | 0 <= i < |xs| && 0 <= j < |ys|
      ensures xs[i] != ys[j]
    {
      assert body[j] in body && xs[i] in xs;
    }
  }

  lemma HoldsAppend(blocks: map<Hash, Block>, c: seq<Block>, b: Block)
    requires Holds(blocks, c) && Linked(c)
    requires b.hash == OfHeader(b.header) && b.header.number == |c|
    ensures Holds(blocks[b.hash := b], c + [b])
  {
    var blocks' := blocks[b.hash := b];
    forall i | 0 <= i < |c + [b]|
      ensures (c + [b])[i].hash in blocks' && blocks'[(c + [b])[i].hash] == (c + [b])[i]
    {
      if i < |c| {
        assert c[i].header.number != b.header.number;
      }
    }
  }

  // ----- Every history of a store -----

  /** A block is validated under the placement of its time. */
  datatype Op =
    | Offer(b: Option<Block>, p: Placement)
    | Migrate(accounts: Accounts)
    | Restart(index: set<Bytes>)

  /** A restart re-reads the index and adds the hashes of every stored body to it. */
  function Backfill(blocks: map<Hash, Block>, index: set<Bytes>): (executed: set<Bytes>)
    ensures index <= executed
    ensures forall k :: k in blocks ==> Indexed(blocks[k].body) <= executed
    ensures forall h :: h in executed && h !in index ==> exists k :: k in blocks && h in Indexed(blocks[k].body)
  {
    index + set k, h | k in blocks && h in Indexed(blocks[k].body) :: h
  }

  /** A persisted index may be any part of the exact one: an older version kept none of it. */
  ghost predicate Possible(st: Store, op: Op) {
    op.Restart? ==> op.index <= st.executed
  }

  function Apply(st: Store, op: Op, s: Shard): Store {
    match op
    case Offer(b, p) => AddBlock(st, b, s, p)
    case Migrate(accounts) => Install(st, accounts)
    case Restart(index) => st.(executed := Backfill(st.blocks, index))
  }

  function Run(st: Store, ops: seq<Op>, s: Shard): Store {
    if ops == [] then st else Apply(Run(st, ops[..|ops| - 1], s), ops[|ops| - 1], s)
  }

  ghost predicate PossibleRun(st: Store, ops: seq<Op>, s: Shard) {
    forall i :: 0 <= i < |ops| ==> Possible(Run(st, ops[..i], s), ops[i])
  }

  lemma BackfillExact(st: Store, c: seq<Block>, index: set<Bytes>)
    requires Stores(st, c) && index <= st.executed
    ensures Backfill(st.blocks, index) == st.executed
  {
    forall h | h in st.executed
      ensures h in Backfill(st.blocks, index)
    {
      AllHashesMember(c, h);
      var i :| 0 <= i < |c| && h in Hashes(c[i].body);
      HashesMember(c[i].body, h);
      assert c[i].hash in st.blocks;
    }
    forall h | h in Backfill(st.blocks, index)
      ensures h in st.executed
    {
      if h !in index {
        var k :| k in st.blocks && h in Indexed(st.blocks[k].body);
        var i :| 0 <= i < |c| && c[i] == st.blocks[k];
        HashesMember(c[i].body, h);
        AllHashesMember(c, h);
      }
    }
  }

  /** The chain after an operation. */
  function NextChain(st: Store, c: seq<Block>, op: Op, s: Shard): seq<Block> {
    match op
    case Offer(b, p) => if Check(st, b, s, p) == Accepted then c + [b.value] else c
    case Migrate(accounts) => c + [Installing(st, accounts)]
    case Restart(_) => c
  }

  lemma ApplyKeeps(st: Store, c: seq<Block>, op: Op, s: Shard)
    requires Stores(st, c) && Possible(st, op)
    ensures Stores(Apply(st, op, s), NextChain(st, c, op, s)) && c <= NextChain(st, c, op, s)
  {
    match op
    case Offer(b, p) =>
      if Check(st, b, s, p) == Accepted {
        AppendKeeps(st, c, b.value);
      }
    case Migrate(accounts) =>
      AppendKeeps(st, c, Installing(st, accounts));
    case Restart(index) =>
      BackfillExact(st, c, index);
  }

  lemma ApplyCovers(st: Store, c: seq<Block>, op: Op, s: Shard)
    requires AllCovered(c) && CarriesBloom(op)
    ensures AllCovered(NextChain(st, c, op, s))
  {
  }

  /** The bloom filter of a block covers its body. */
  ghost predicate BloomCovers(b: Block) {
    forall tx :: tx in b.body ==> ModBytes(tx.hash, BLOOM_BITS) in b.header.bloom
  }

  ghost predicate AllCovered(c: seq<Block>) {
    forall i :: 0 <= i < |c| ==> BloomCovers(c[i])
  }

  /** An offered block has the bloom filter that proposers compute. */
  ghost predicate CarriesBloom(op: Op) {
    op.Offer? && op.b.Some? ==> op.b.value.header.bloom == Bloom(op.b.value.body)
  }

  /** Over every history of offered blocks, migrations and restarts, each block under the placement of its
      time, the store stays exact and its chain only grows. */
  lemma {:induction false} RunKeeps(st: Store, c: seq<Block>, ops: seq<Op>, s: Shard)
    returns (c': seq<Block>)
    requires Stores(st, c) && PossibleRun(st, ops, s)
    ensures Stores(Run(st, ops, s), c') && c <= c'
    ensures AllCovered(c) && (forall i :: 0 <= i < |ops| ==> CarriesBloom(ops[i])) ==> AllCovered(c')
  {
    if ops == [] {
      c' := c;
    } else {
      var init := ops[..|ops| - 1];
      forall i | 0 <= i < |init|
        ensures Possible(Run(st, init[..i], s), init[i])
      {
        assert init[..i] == ops[..i];
      }
      c' := RunKeeps(st, c, init, s);
      ApplyKeeps(Run(st, init, s), c', ops[|ops| - 1], s);
      if AllCovered(c') && CarriesBloom(ops[|ops| - 1]) {
        ApplyCovers(Run(st, init, s), c', ops[|ops| - 1], s);
      }
      c' := NextChain(Run(st, init, s), c', ops[|ops| - 1], s);
    }
  }

  lemma NewStoreExact()
    ensures Stores(NewStore(), [GENESIS])
  {
    assert AllHashes([GENESIS]) == [];
  }

  // ----- The index against the proof walk -----

  function FoundInBlock(b: Block, h: Bytes): bool {
    ModBytes(h, BLOOM_BITS) in b.header.bloom && h in HashSet(b.body) && HashSet(b.body) == b.header.txRoot
  }

  /** Walking parent links down from height n, genesis excluded. */
  function Walk(blocks: map<Hash, Block>, at: Hash, n: nat, h: Bytes): bool
    decreases n
  {
    if n == 0 || at !in blocks then false
    else FoundInBlock(blocks[at], h) || Walk(blocks, blocks[at].header.parent, n - 1, h)
  }

  lemma {:induction false} WalkFinds(blocks: map<Hash, Block>, c: seq<Block>, n: nat, h: Bytes)
    requires Linked(c) && Holds(blocks, c) && n < |c|
    ensures Walk(blocks, c[n].hash, n, h) <==> exists i :: 0 < i <= n && FoundInBlock(c[i], h)
  {
    if n > 0 {
      WalkFinds(blocks, c, n - 1, h);
    }
  }

  /** The walk and the index agree on every hash exactly when every stored bloom covers its body. */
  lemma IndexAgreesWithWalk(st: Store, c: seq<Block>)
    requires Stores(st, c)
    ensures (forall h :: h in st.executed <==> Walk(st.blocks, st.newest, st.current.header.number, h))
            <==> AllCovered(c)
  {
    var n := |c| - 1;
    forall h
      ensures Walk(st.blocks, st.newest, n, h) <==> exists i :: 0 < i <= n && FoundInBlock(c[i], h)
      ensures h in st.executed <==> exists i :: 0 <= i < |c| && h in HashSet(c[i].body)
    {
      WalkFinds(st.blocks, c, n, h);
      IndexMember(c, h);
    }
    if AllCovered(c) {
      forall h | h in st.executed
        ensures Walk(st.blocks, st.newest, n, h)
      {
        var i :| 0 <= i < |c| && h in HashSet(c[i].body);
        assert i > 0 && FoundInBlock(c[i], h);
      }
    }
    if i :| 0 <= i < |c| && !BloomCovers(c[i]) {
      var tx :| tx in c[i].body && ModBytes(tx.hash, BLOOM_BITS) !in c[i].header.bloom;
      assert tx.hash in st.executed;
      HiddenByBloom(c, i, tx);
    }
  }

  /** On every history from a new store whose blocks carry the bloom filter of their body, the index and the
      walk agree on every hash. */
  lemma HistoryAgreesWithWalk(ops: seq<Op>, s: Shard, h: Bytes)
    requires PossibleRun(NewStore(), ops, s) && forall i :: 0 <= i < |ops| ==> CarriesBloom(ops[i])
    ensures var st := Run(NewStore(), ops, s);
            h in st.executed <==> Walk(st.blocks, st.newest, st.current.header.number, h)
  {
    NewStoreExact();
    var c := RunKeeps(NewStore(), [GENESIS], ops, s);
    IndexAgreesWithWalk(Run(NewStore(), ops, s), c);
  }

  /** What the index answers is whether some stored block holds the hash. */
  lemma IndexMeansStored(st: Store, c: seq<Block>, h: Bytes)
    requires Stores(st, c)
    ensures h in st.executed <==> SomeBodyHas(c, h)
    ensures AllCovered(c) ==> (h in st.executed <==> Walk(st.blocks, st.current.hash, st.current.header.number, h))
  {
    AllHashesMember(c, h);
    IndexAgreesWithWalk(st, c);
  }

  lemma IndexMember(c: seq<Block>, h: Bytes)
    ensures h in AllHashes(c) <==> exists i :: 0 <= i < |c| && h in HashSet(c[i].body)
  {
    AllHashesMember(c, h);
    forall i | 0 <= i < |c|
      ensures h in Hashes(c[i].body) <==> h in HashSet(c[i].body)
    {
      HashesMember(c[i].body, h);
    }
  }

  /** A hash lives in one block only, so a bloom that misses it hides it from the walk. */
  lemma {:induction false} HiddenByBloom(c: seq<Block>, i: nat, tx: Tx)
    requires Distinct(AllHashes(c)) && i < |c| && tx in c[i].body
    requires ModBytes(tx.hash, BLOOM_BITS) !in c[i].header.bloom
    ensures forall j :: 0 <= j < |c| ==> !FoundInBlock(c[j], tx.hash)
  {
    forall j | 0 <= j < |c| && tx.hash in HashSet(c[j].body)
      ensures i == j
    {
      HashesMember(c[i].body, tx.hash);
      HashesMember(c[j].body, tx.hash);
      OneBlockOnly(c, i, j, tx.hash);
    }
  }

  lemma {:induction false} OneBlockOnly(c: seq<Block>, i: nat, j: nat, h: Bytes)
    requires Distinct(AllHashes(c)) && i < |c| && j < |c|
    requires h in Hashes(c[i].body) && h in Hashes(c[j].body)
    ensures i == j
  {
    var init, last := c[..|c| - 1], Hashes(c[|c| - 1].body);
    DistinctSplit(AllHashes(init), last, h);
    if h in last {
      AllHashesMember(init, h);
      assert forall k :: 0 <= k < |init| ==> h !in Hashes(init[k].body);
    } else {
      OneBlockOnly(init, i, j, h);
    }
  }

  lemma DistinctSplit(xs: seq<Bytes>, ys: seq<Bytes>, h: Bytes)
    requires Distinct(xs + ys)
    ensures Distinct(xs) && (h in ys ==> h !in xs)
  {
    assert forall a :: 0 <= a < |xs| ==> xs[a] == (xs + ys)[a];
    if b :| 0 <= b < |ys| && ys[b] == h {
      assert (xs + ys)[|xs| + b] == h;
    }
  }

  /** Validation never looks at the bloom filter: on every store, a proposal resealed with any filter is
      still accepted, and with an empty filter the walk denies what the index confirms. */
  lemma ForgedBloomHidesCommit(st: Store, c: seq<Block>, packed: seq<Tx>, s: Shard, p: Placement, tx: Tx)
    requires Stores(st, c) && tx in Fresh(packed, st.executed)
    ensures var b := Propose(st, Fresh(packed, st.executed), 0, 0, s, p);
            var forged := Seal(b.header.(bloom := {}), b.body);
            var st' := AddBlock(st, Some(forged), s, p);
            && Check(st, Some(forged), s, p) == Accepted
            && tx.hash in st'.executed
            && !Walk(st'.blocks, st'.newest, st'.current.header.number, tx.hash)
  {
    var b := Propose(st, Fresh(packed, st.executed), 0, 0, s, p);
    var forged := Seal(b.header.(bloom := {}), b.body);
    ProposedIsAccepted(st, packed, 0, 0, s, p);
    AppendKeeps(st, c, forged);
    WalkFinds(Append(st, forged).blocks, c + [forged], |c|, tx.hash);
    HiddenByBloom(c + [forged], |c|, tx);
  }
}
