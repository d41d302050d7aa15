/** Re-sharding: accounts and pending transactions change shards while balances do not change.

    A shard's account map keeps stale copies of accounts that have moved away. One round fetches what
    leaves from every shard, installs it at its destination and switches every shard to the new map. */
module Migration {
  import opened Common
  import opened Ledger

  type Moves = map<Addr, Shard>

  datatype Node = Node(trie: Accounts, queue: seq<Tx>)

  function Switched(p: Placement, M: Moves): Placement {
    Placement(p.recorded + M, p.hash)
  }

  // ----- Accounts -----

  /** The accounts shard s hands to shard d. */
  function Leaving(M: Moves, p: Placement, s: Shard, d: Shard): set<Addr> {
    set a | a in M && M[a] == d && d != s && p.Of(a) == s
  }

  /** What shard s sends to shard d: the state it holds, or the initial one. */
  function Packet(trie: Accounts, M: Moves, p: Placement, s: Shard, d: Shard): map<Addr, Account> {
    map a | a in Leaving(M, p, s, d) :: Lookup(trie, a, 0)
  }

  /** Everything shard d receives. */
  function Arriving(nodes: seq<Node>, M: Moves, p: Placement, d: Shard): map<Addr, Account> {
    map a | a in M && M[a] == d && p.Of(a) != d && p.Of(a) < |nodes| :: Lookup(nodes[p.Of(a)].trie, a, 0)
  }

  /** Each arriving account comes in the packet of its old owner and in no other packet. */
  lemma ArrivingIsPackets(nodes: seq<Node>, M: Moves, p: Placement, d: Shard, a: Addr)
    ensures a in Arriving(nodes, M, p, d) <==> exists s :: 0 <= s < |nodes| && a in Packet(nodes[s].trie, M, p, s, d)
    ensures forall s :: 0 <= s < |nodes| && a in Packet(nodes[s].trie, M, p, s, d) ==>
              && p.Of(a) == s
              && Packet(nodes[s].trie, M, p, s, d)[a] == Arriving(nodes, M, p, d)[a]
  {
    if a in Arriving(nodes, M, p, d) {
      assert a in Packet(nodes[p.Of(a)].trie, M, p, p.Of(a), d);
    }
  }

  // ----- Pending transactions -----

  /** The account whose shard must execute the transaction next. */
  function RoutingAccount(tx: Tx): Addr {
    if tx.relayed then tx.recipient else tx.sender
  }

  function Keep(q: seq<Tx>, S: set<Addr>): seq<Tx> {
    if q == [] then [] else
      Keep(q[..|q| - 1], S) + (if RoutingAccount(q[|q| - 1]) in S then [] else [q[|q| - 1]])
  }

  function Send(q: seq<Tx>, S: set<Addr>): seq<Tx> {
    if q == [] then [] else
      Send(q[..|q| - 1], S) + (if RoutingAccount(q[|q| - 1]) in S then [q[|q| - 1]] else [])
  }

  /** The accounts shard s hands to any shard below n. */
  function LeavingBelow(M: Moves, p: Placement, s: Shard, n: nat): set<Addr> {
    set a | a in M && M[a] < n && M[a] != s && p.Of(a) == s
  }

  lemma {:induction false} KeepTwice(q: seq<Tx>, S: set<Addr>, T: set<Addr>)
    ensures Keep(Keep(q, S), T) == Keep(q, S + T)
    ensures S !! T ==> Send(Keep(q, S), T) == Send(q, T)
  {
    if q != [] {
      var init, x := q[..|q| - 1], q[|q| - 1];
      KeepTwice(init, S, T);
      if RoutingAccount(x) !in S {
        assert (Keep(init, S) + [x])[..|Keep(init, S) + [x]| - 1] == Keep(init, S);
      } else {
        assert Keep(init, S) + [] == Keep(init, S);
      }
    }
  }

  lemma {:induction false} KeepMembers(q: seq<Tx>, S: set<Addr>)
    ensures forall tx :: tx in Keep(q, S) <==> tx in q && RoutingAccount(tx) !in S
    ensures forall tx :: tx in Send(q, S) <==> tx in q && RoutingAccount(tx) in S
  {
    if q != [] {
      KeepMembers(q[..|q| - 1], S);
      assert q == q[..|q| - 1] + [q[|q| - 1]];
    }
  }

  lemma {:induction false} KeepSplits(q: seq<Tx>, S: set<Addr>)
    ensures multiset(q) == multiset(Keep(q, S)) + multiset(Send(q, S))
  {
    if q != [] {
      var init, x := q[..|q| - 1], q[|q| - 1];
      KeepSplits(init, S);
      assert q == init + [x];
      AppendToOne(Keep(init, S), Send(init, S), x);
      if RoutingAccount(x) in S {
        assert Keep(q, S) == Keep(init, S) && Send(q, S) == Send(init, S) + [x];
      } else {
        assert Keep(q, S) == Keep(init, S) + [x] && Send(q, S) == Send(init, S);
      }
    }
  }

  lemma AppendToOne(a: seq<Tx>, b: seq<Tx>, x: Tx)
    ensures multiset(a + [x]) + multiset(b) == multiset(a) + multiset(b) + multiset{x}
    ensures multiset(a) + multiset(b + [x]) == multiset(a) + multiset(b) + multiset{x}
  {
  }

  lemma Regroup(a: multiset<Tx>, b: multiset<Tx>, c: multiset<Tx>)
    ensures (a + b) + c == a + (c + b)
  {
  }

  /** All per-destination lists together. */
  ghost function SentBelow(q: seq<Tx>, M: Moves, p: Placement, s: Shard, n: nat): multiset<Tx> {
    if n == 0 then multiset{} else
      SentBelow(q, M, p, s, n - 1) + multiset(Send(q, Leaving(M, p, s, n - 1)))
  }

  ghost predicate SplitsBelow(q: seq<Tx>, M: Moves, p: Placement, s: Shard, n: nat) {
    multiset(q) == multiset(Keep(q, LeavingBelow(M, p, s, n))) + SentBelow(q, M, p, s, n)
  }

  /** The queue splits exactly: every transaction is kept, or sent to one destination, once. */
  lemma QueueSplits(q: seq<Tx>, M: Moves, p: Placement, s: Shard, n: nat)
    ensures SplitsBelow(q, M, p, s, n)
  {
    NothingLeaves(q, M, p, s);
    for d := 0 to n
      invariant SplitsBelow(q, M, p, s, d)
    {
      SplitNext(q, M, p, s, d);
    }
  }

  lemma NothingLeaves(q: seq<Tx>, M: Moves, p: Placement, s: Shard)
    ensures SplitsBelow(q, M, p, s, 0)
  {
    assert LeavingBelow(M, p, s, 0) == {};
    KeepAll(q);
  }

  lemma SplitNext(q: seq<Tx>, M: Moves, p: Placement, s: Shard, d: nat)
    requires SplitsBelow(q, M, p, s, d)
    ensures SplitsBelow(q, M, p, s, d + 1)
  {
    LeavingStep(M, p, s, d);
    SplitOff(q, LeavingBelow(M, p, s, d), Leaving(M, p, s, d), SentBelow(q, M, p, s, d));
  }

  lemma SplitOff(q: seq<Tx>, S: set<Addr>, T: set<Addr>, sent: multiset<Tx>)
    requires S !! T && multiset(q) == multiset(Keep(q, S)) + sent
    ensures multiset(q) == multiset(Keep(q, S + T)) + (sent + multiset(Send(q, T)))
  {
    KeepTwice(q, S, T);
    KeepSplits(Keep(q, S), T);
    Regroup(multiset(Keep(q, S + T)), multiset(Send(q, T)), sent);
  }

  lemma {:induction false} KeepAll(q: seq<Tx>)
    ensures Keep(q, {}) == q
  {
    if q != [] {
      KeepAll(q[..|q| - 1]);
    }
  }

  lemma LeavingStep(M: Moves, p: Placement, s: Shard, d: Shard)
    ensures LeavingBelow(M, p, s, d + 1) == LeavingBelow(M, p, s, d) + Leaving(M, p, s, d)
    ensures LeavingBelow(M, p, s, d) !! Leaving(M, p, s, d)
  {
  }

  // ----- A round -----

  function Gather(nodes: seq<Node>, M: Moves, p: Placement, d: Shard, order: seq<Shard>): seq<Tx>
    requires forall i :: 0 <= i < |order| ==> order[i] < |nodes|
  {
    if order == [] then [] else
      var s := order[|order| - 1];
      Gather(nodes, M, p, d, order[..|order| - 1]) + Send(nodes[s].queue, Leaving(M, p, s, d))
  }

  /** Messages arrive from every shard, in any order. */
  ghost predicate IsOrder(order: seq<Shard>, n: nat) {
    && Distinct(order)
    && (forall i :: 0 <= i < |order| ==> order[i] < n) && (forall s :: 0 <= s < n ==> s in order)
  }

  function RoundNode(nodes: seq<Node>, M: Moves, p: Placement, d: Shard, order: seq<Shard>): Node
    requires d < |nodes| && forall i :: 0 <= i < |order| ==> order[i] < |nodes|
  {
    Node(nodes[d].trie + Arriving(nodes, M, p, d),
         Keep(nodes[d].queue, LeavingBelow(M, p, d, |nodes|)) + Gather(nodes, M, p, d, order))
  }

  ghost predicate Orders(orders: seq<seq<Shard>>, n: nat) {
    |orders| == n && forall d :: 0 <= d < n ==> IsOrder(orders[d], n)
  }

  function Round(nodes: seq<Node>, M: Moves, p: Placement, orders: seq<seq<Shard>>): (nodes': seq<Node>)
    requires |orders| == |nodes|
    requires forall d, i :: 0 <= d < |orders| && 0 <= i < |orders[d]| ==> orders[d][i] < |nodes|
    ensures |nodes'| == |nodes| && forall d :: 0 <= d < |nodes| ==> nodes'[d] == RoundNode(nodes, M, p, d, orders[d])
  {
    seq(|nodes|, d requires 0 <= d < |nodes| => RoundNode(nodes, M, p, d, orders[d]))
  }

  /** Every shard a map mentions exists. */
  ghost predicate InRange(p: Placement, n: nat) {
    forall a :: p.Of(a) < n
  }

  ghost predicate MovesInRange(M: Moves, n: nat) {
    forall a :: a in M ==> M[a] < n
  }

  // ----- The one global account map -----

  function GlobalBal(g: map<Addr, int>, a: Addr): int {
    if a in g then g[a] else INIT_BALANCE
  }

  /** Every account's balance, read from its owner, is the one the global map records. */
  ghost predicate Represents(nodes: seq<Node>, p: Placement, g: map<Addr, int>) {
    InRange(p, |nodes|) && forall a :: BalanceOf(nodes[p.Of(a)].trie, a) == GlobalBal(g, a)
  }

  /** A round leaves every logical balance as it was, wherever the account now lives. */
  lemma RoundKeepsBalances(nodes: seq<Node>, M: Moves, p: Placement, orders: seq<seq<Shard>>, g: map<Addr, int>)
    requires Represents(nodes, p, g) && MovesInRange(M, |nodes|) && Orders(orders, |nodes|)
    ensures Represents(Round(nodes, M, p, orders), Switched(p, M), g)
  {
    var nodes', p' := Round(nodes, M, p, orders), Switched(p, M);
    forall a
      ensures p'.Of(a) < |nodes| && BalanceOf(nodes'[p'.Of(a)].trie, a) == GlobalBal(g, a)
    {
      var d := p'.Of(a);
      assert BalanceOf(nodes[p.Of(a)].trie, a) == GlobalBal(g, a);
      assert a in M ==> d == M[a];
    }
  }

  /** One transaction on the global map, seen from the shard that executes it. */
  function GlobalTx(g: map<Addr, int>, tx: Tx, s: Shard, p: Placement): map<Addr, int> {
    if HasDebit(tx, s, p) && GlobalBal(g, tx.sender) < tx.value then g else
      var g1 := if HasDebit(tx, s, p) then g[tx.sender := GlobalBal(g, tx.sender) - tx.value] else g;
      if HasCredit(tx, s, p) then g1[tx.recipient := GlobalBal(g1, tx.recipient) + tx.value] else g1
  }

  function GlobalExec(g: map<Addr, int>, txs: seq<Tx>, s: Shard, p: Placement): map<Addr, int> {
    if txs == [] then g else GlobalTx(GlobalExec(g, txs[..|txs| - 1], s, p), txs[|txs| - 1], s, p)
  }

  /** The trie of shard s and the global map agree on the accounts s owns. */
  ghost predicate OwnedAgree(st: Accounts, s: Shard, p: Placement, g: map<Addr, int>) {
    forall a :: p.Of(a) == s ==> BalanceOf(st, a) == GlobalBal(g, a)
  }

  predicate NoBroker(txs: seq<Tx>) {
    forall i :: 0 <= i < |txs| ==> !txs[i].hasBroker
  }

  /** Executing a block reads and writes only accounts its shard owns. */
  lemma {:induction false} ExecOwned(st: Accounts, txs: seq<Tx>, s: Shard, p: Placement, g: map<Addr, int>)
    requires NoBroker(txs) && OwnedAgree(st, s, p, g)
    ensures OwnedAgree(Exec(st, txs, s, p), s, p, GlobalExec(g, txs, s, p))
    ensures forall a :: p.Of(a) != s ==> GlobalBal(GlobalExec(g, txs, s, p), a) == GlobalBal(g, a)
    ensures forall a :: p.Of(a) != s ==> (a in Exec(st, txs, s, p) <==> a in st)
    ensures forall a :: p.Of(a) != s && a in st ==> Exec(st, txs, s, p)[a] == st[a]
  {
    if txs != [] {
      ExecOwned(st, txs[..|txs| - 1], s, p, g);
      ExecTxOwned(Exec(st, txs[..|txs| - 1], s, p), |txs| - 1, txs[|txs| - 1], s, p,
                  GlobalExec(g, txs[..|txs| - 1], s, p));
    }
  }

  lemma ExecTxOwned(st: Accounts, i: nat, tx: Tx, s: Shard, p: Placement, g: map<Addr, int>)
    requires !tx.hasBroker && OwnedAgree(st, s, p, g)
    ensures OwnedAgree(ExecTx(st, i, tx, s, p), s, p, GlobalTx(g, tx, s, p))
    ensures forall a :: p.Of(a) != s ==> GlobalBal(GlobalTx(g, tx, s, p), a) == GlobalBal(g, a)
    ensures forall a :: p.Of(a) != s ==> (a in ExecTx(st, i, tx, s, p) <==> a in st)
    ensures forall a :: p.Of(a) != s && a in st ==> ExecTx(st, i, tx, s, p)[a] == st[a]
  {
  }

  lemma BlockRefines(nodes: seq<Node>, s: Shard, body: seq<Tx>, p: Placement, g: map<Addr, int>)
    requires Represents(nodes, p, g) && s < |nodes| && NoBroker(body)
    ensures var node := nodes[s].(trie := Exec(nodes[s].trie, body, s, p));
            Represents(nodes[s := node], p, GlobalExec(g, body, s, p))
  {
    ExecOwned(nodes[s].trie, body, s, p, g);
  }

  // ----- The global map without shards -----

  /** One stage of a transfer on the global map. Apart says whether its two accounts live on different shards:
      then the first stage only debits, and the second one credits. */
  function StageTx(g: map<Addr, int>, tx: Tx, apart: bool): map<Addr, int> {
    if tx.relayed then g[tx.recipient := GlobalBal(g, tx.recipient) + tx.value]
    else if GlobalBal(g, tx.sender) < tx.value then g
    else
      var g1 := g[tx.sender := GlobalBal(g, tx.sender) - tx.value];
      if apart then g1 else g1[tx.recipient := GlobalBal(g1, tx.recipient) + tx.value]
  }

  function StageExec(g: map<Addr, int>, txs: seq<Tx>, p: Placement): map<Addr, int> {
    if txs == [] then g else
      var tx := txs[|txs| - 1];
      StageTx(StageExec(g, txs[..|txs| - 1], p), tx, p.Of(tx.sender) != p.Of(tx.recipient))
  }

  /** Every transaction is at the shard of its routing account. */
  predicate RoutedTo(txs: seq<Tx>, s: Shard, p: Placement) {
    forall i :: 0 <= i < |txs| ==> p.Of(RoutingAccount(txs[i])) == s
  }

  /** What a routed block does to the global map does not depend on the shard that executes it. */
  lemma {:induction false} RoutedBlockIgnoresShard(g: map<Addr, int>, txs: seq<Tx>, s: Shard, p: Placement)
    requires NoBroker(txs) && RoutedTo(txs, s, p)
    ensures GlobalExec(g, txs, s, p) == StageExec(g, txs, p)
  {
    if txs != [] {
      var init, tx := txs[..|txs| - 1], txs[|txs| - 1];
      RoutedBlockIgnoresShard(g, init, s, p);
      RoutedTxIgnoresShard(StageExec(g, init, p), tx, s, p);
    }
  }

  lemma RoutedTxIgnoresShard(g: map<Addr, int>, tx: Tx, s: Shard, p: Placement)
    requires !tx.hasBroker && p.Of(RoutingAccount(tx)) == s
    ensures GlobalTx(g, tx, s, p) == StageTx(g, tx, p.Of(tx.sender) != p.Of(tx.recipient))
  {
  }

  /** The two stages of a covered transfer between shards add up to the transfer within one. */
  lemma TwoStagesAreOneTransfer(g: map<Addr, int>, tx: Tx)
    requires !tx.relayed && GlobalBal(g, tx.sender) >= tx.value
    ensures StageTx(StageTx(g, tx, true), tx.(relayed := true), true) == StageTx(g, tx, false)
  {
  }

  // ----- Any alternation of blocks and rounds -----

  datatype Event =
    | Arrive(s: Shard, tx: Tx)
    | BlockEvent(s: Shard, body: seq<Tx>)
    | RoundEvent(M: Moves, orders: seq<seq<Shard>>)

  datatype System = System(nodes: seq<Node>, p: Placement)

  ghost predicate Enabled(sys: System, e: Event) {
    match e
    case Arrive(s, tx) => s < |sys.nodes| && sys.p.Of(RoutingAccount(tx)) == s
    case BlockEvent(s, body) => s < |sys.nodes| && NoBroker(body)
    case RoundEvent(M, orders) => MovesInRange(M, |sys.nodes|) && Orders(orders, |sys.nodes|)
  }

  function Next(sys: System, e: Event): System
    requires Enabled(sys, e)
  {
    match e
    case Arrive(s, tx) => sys.(nodes := sys.nodes[s := sys.nodes[s].(queue := sys.nodes[s].queue + [tx])])
    case BlockEvent(s, body) =>
      var node := sys.nodes[s];
      sys.(nodes := sys.nodes[s := Node(Exec(node.trie, body, s, sys.p), Without(node.queue, HashSet(body)))])
    case RoundEvent(M, orders) => System(Round(sys.nodes, M, sys.p, orders), Switched(sys.p, M))
  }

  /** The same event on the global map: only blocks change balances. */
  function GlobalNext(g: map<Addr, int>, p: Placement, e: Event): map<Addr, int> {
    if e.BlockEvent? then GlobalExec(g, e.body, e.s, p) else g
  }

  function NextPlacement(p: Placement, e: Event): Placement {
    if e.RoundEvent? then Switched(p, e.M) else p
  }

  ghost predicate Reaches(sys: System, es: seq<Event>, sys': System)
    decreases |es|
  {
    if es == [] then sys' == sys else Enabled(sys, es[0]) && Reaches(Next(sys, es[0]), es[1..], sys')
  }

  function GlobalRun(g: map<Addr, int>, p: Placement, es: seq<Event>): map<Addr, int>
    decreases |es|
  {
    if es == [] then g else GlobalRun(GlobalNext(g, p, es[0]), NextPlacement(p, es[0]), es[1..])
  }

  /** Every pending transaction is where its next stage must run. */
  ghost predicate Belong(sys: System) {
    forall s, tx :: 0 <= s < |sys.nodes| && tx in sys.nodes[s].queue ==> sys.p.Of(RoutingAccount(tx)) == s
  }

  // ----- What every alternation keeps -----

  lemma {:induction false} GatherMembers(nodes: seq<Node>, M: Moves, p: Placement, d: Shard, order: seq<Shard>, tx: Tx)
    requires forall i :: 0 <= i < |order| ==> order[i] < |nodes|
    ensures tx in Gather(nodes, M, p, d, order) <==>
            exists i :: 0 <= i < |order| && tx in nodes[order[i]].queue
                     && RoutingAccount(tx) in Leaving(M, p, order[i], d)
  {
    if order != [] {
      var init, s := order[..|order| - 1], order[|order| - 1];
      GatherMembers(nodes, M, p, d, init, tx);
      KeepMembers(nodes[s].queue, Leaving(M, p, s, d));
      if i :| 0 <= i < |init| && tx in nodes[init[i]].queue && RoutingAccount(tx) in Leaving(M, p, init[i], d) {
        assert order[i] == init[i];
      }
      if i :| 0 <= i < |order| && tx in nodes[order[i]].queue && RoutingAccount(tx) in Leaving(M, p, order[i], d) {
        assert i < |init| ==> init[i] == order[i];
      }
    }
  }

  /** After a round every pending transaction is again where it belongs: what is kept belongs here, and
      what was sent belongs to the shard that received it. */
  lemma RoundKeepsBelonging(sys: System, M: Moves, orders: seq<seq<Shard>>)
    requires Belong(sys) && Enabled(sys, RoundEvent(M, orders))
    ensures Belong(Next(sys, RoundEvent(M, orders)))
  {
    var sys' := Next(sys, RoundEvent(M, orders));
    var n := |sys.nodes|;
    forall d, tx | 0 <= d < n && tx in sys'.nodes[d].queue
      ensures sys'.p.Of(RoutingAccount(tx)) == d
    {
      KeepMembers(sys.nodes[d].queue, LeavingBelow(M, sys.p, d, n));
      GatherMembers(sys.nodes, M, sys.p, d, orders[d], tx);
    }
  }

  /** The guard on received transactions never fires: each one's routing account was mapped here. */
  lemma ReceivedAreMappedHere(nodes: seq<Node>, M: Moves, p: Placement, d: Shard, order: seq<Shard>, tx: Tx)
    requires forall i :: 0 <= i < |order| ==> order[i] < |nodes|
    requires tx in Gather(nodes, M, p, d, order)
    ensures RoutingAccount(tx) in M && M[RoutingAccount(tx)] == d
  {
    GatherMembers(nodes, M, p, d, order, tx);
  }

  lemma StepKeeps(sys: System, e: Event, g: map<Addr, int>)
    requires Enabled(sys, e) && Represents(sys.nodes, sys.p, g) && Belong(sys)
    ensures Represents(Next(sys, e).nodes, Next(sys, e).p, GlobalNext(g, sys.p, e))
    ensures Next(sys, e).p == NextPlacement(sys.p, e) && Belong(Next(sys, e))
  {
    match e
    case Arrive(s, tx) =>
    case BlockEvent(s, body) =>
      BlockRefines(sys.nodes, s, body, sys.p, g);
      forall tx | tx in Without(sys.nodes[s].queue, HashSet(body))
        ensures tx in sys.nodes[s].queue
      {
        WithoutMembers(sys.nodes[s].queue, HashSet(body), tx);
      }
    case RoundEvent(M, orders) =>
      RoundKeepsBalances(sys.nodes, M, sys.p, orders, g);
      RoundKeepsBelonging(sys, M, orders);
  }

  /** Over any alternation of arrivals, blocks and rounds, the shards together behave as one global
      account map, and every pending transaction stays where its next stage must run. */
  lemma {:induction false} RunRefinesGlobalMap(sys: System, es: seq<Event>, sys': System, g: map<Addr, int>)
    requires Represents(sys.nodes, sys.p, g) && Belong(sys) && Reaches(sys, es, sys')
    ensures Represents(sys'.nodes, sys'.p, GlobalRun(g, sys.p, es)) && Belong(sys')
    decreases |es|
  {
    if es != [] {
      StepKeeps(sys, es[0], g);
      RunRefinesGlobalMap(Next(sys, es[0]), es[1..], sys', GlobalNext(g, sys.p, es[0]));
    }
  }

  function StageRun(g: map<Addr, int>, p: Placement, es: seq<Event>): map<Addr, int>
    decreases |es|
  {
    if es == [] then g else
      StageRun(if es[0].BlockEvent? then StageExec(g, es[0].body, p) else g, NextPlacement(p, es[0]), es[1..])
  }

  /** Every block holds transactions of its own shard, under the placement of its time. */
  ghost predicate RoutedRun(p: Placement, es: seq<Event>)
    decreases |es|
  {
    es == [] ||
    ((es[0].BlockEvent? ==> RoutedTo(es[0].body, es[0].s, p)) && RoutedRun(NextPlacement(p, es[0]), es[1..]))
  }

  lemma {:induction false} RoutedRunIgnoresShards(sys: System, es: seq<Event>, sys': System, g: map<Addr, int>)
    requires Reaches(sys, es, sys') && RoutedRun(sys.p, es)
    ensures GlobalRun(g, sys.p, es) == StageRun(g, sys.p, es)
    decreases |es|
  {
    if es != [] {
      if es[0].BlockEvent? {
        RoutedBlockIgnoresShard(g, es[0].body, es[0].s, sys.p);
      }
      RoutedRunIgnoresShards(Next(sys, es[0]), es[1..], sys', GlobalNext(g, sys.p, es[0]));
    }
  }

  /** When every block holds transactions of its own shard, the global map needs no shards at all: it is the
      transfers themselves, a transfer between shards in two stages. */
  lemma RoutedRunIsTransfers(sys: System, es: seq<Event>, sys': System, g: map<Addr, int>)
    requires Represents(sys.nodes, sys.p, g) && Belong(sys) && Reaches(sys, es, sys') && RoutedRun(sys.p, es)
    ensures Represents(sys'.nodes, sys'.p, StageRun(g, sys.p, es))
  {
    RunRefinesGlobalMap(sys, es, sys', g);
    RoutedRunIgnoresShards(sys, es, sys', g);
  }

  /** Stale copies are never read: two systems whose owners hold the same balances, whatever else their
      tries hold, show the same balances after the same events. */
  lemma StaleCopiesNeverRead(sys: System, other: System, es: seq<Event>, sys': System, other': System,
                             g: map<Addr, int>, a: Addr)
    requires Represents(sys.nodes, sys.p, g) && Represents(other.nodes, other.p, g) && other.p == sys.p
    requires Belong(sys) && Belong(other)
    requires Reaches(sys, es, sys') && Reaches(other, es, other')
    ensures InRange(sys'.p, |sys'.nodes|) && InRange(other'.p, |other'.nodes|)
    ensures BalanceOf(sys'.nodes[sys'.p.Of(a)].trie, a) == BalanceOf(other'.nodes[other'.p.Of(a)].trie, a)
  {
    RunRefinesGlobalMap(sys, es, sys', g);
    RunRefinesGlobalMap(other, es, other', g);
  }

  // ----- Nothing lost, copied or reordered -----

  /** The kept queue is a subsequence of the old one. */
  lemma {:induction false} KeepKeepsOrder(q: seq<Tx>, S: set<Addr>) returns (at: seq<nat>)
    ensures |at| == |Keep(q, S)|
    ensures forall i :: 0 <= i < |at| ==> at[i] < |q| && q[at[i]] == Keep(q, S)[i]
    ensures forall i, j :: 0 <= i < j < |at| ==> at[i] < at[j]
  {
    if q == [] {
      at := [];
    } else {
      var init := q[..|q| - 1];
      at := KeepKeepsOrder(init, S);
      if RoutingAccount(q[|q| - 1]) !in S {
        assert Keep(q, S) == Keep(init, S) + [q[|q| - 1]];
        at := at + [|q| - 1];
      } else {
        assert Keep(q, S) == Keep(init, S);
      }
    }
  }

  /** The sent list is in the old order, too. */
  lemma {:induction false} SendKeepsOrder(q: seq<Tx>, S: set<Addr>) returns (at: seq<nat>)
    ensures |at| == |Send(q, S)|
    ensures forall i :: 0 <= i < |at| ==> at[i] < |q| && q[at[i]] == Send(q, S)[i]
    ensures forall i, j :: 0 <= i < j < |at| ==> at[i] < at[j]
  {
    if q == [] {
      at := [];
    } else {
      var init := q[..|q| - 1];
      at := SendKeepsOrder(init, S);
      if RoutingAccount(q[|q| - 1]) in S {
        assert Send(q, S) == Send(init, S) + [q[|q| - 1]];
        at := at + [|q| - 1];
      } else {
        assert Send(q, S) == Send(init, S);
      }
    }
  }

  lemma {:induction false} CopiesSplit(q: seq<Tx>, S: set<Addr>, x: Tx)
    ensures multiset(Keep(q, S))[x] == (if RoutingAccount(x) in S then 0 else multiset(q)[x])
    ensures multiset(Send(q, S))[x] == (if RoutingAccount(x) in S then multiset(q)[x] else 0)
  {
    if q != [] {
      var init, y := q[..|q| - 1], q[|q| - 1];
      CopiesSplit(init, S, x);
      assert q == init + [y];
      OneMoreCopy(init, y, x);
      if RoutingAccount(y) in S {
        OneMoreCopy(Send(init, S), y, x);
        assert Keep(q, S) == Keep(init, S);
      } else {
        OneMoreCopy(Keep(init, S), y, x);
        assert Send(q, S) == Send(init, S);
      }
    }
  }

  lemma OneMoreCopy(q: seq<Tx>, y: Tx, x: Tx)
    ensures multiset(q + [y])[x] == multiset(q)[x] + (if y == x then 1 else 0)
  {
  }

  lemma {:induction false} CopiesGathered(nodes: seq<Node>, M: Moves, p: Placement, d: Shard, order: seq<Shard>, x: Tx)
    requires Distinct(order) && forall i :: 0 <= i < |order| ==> order[i] < |nodes|
    ensures var r := RoutingAccount(x);
            multiset(Gather(nodes, M, p, d, order))[x] ==
            if p.Of(r) in order && r in Leaving(M, p, p.Of(r), d) then multiset(nodes[p.Of(r)].queue)[x] else 0
  {
    if order != [] {
      var init, s := order[..|order| - 1], order[|order| - 1];
      CopiesGathered(nodes, M, p, d, init, x);
      CopiesOneMore(nodes, M, p, d, order, x);
      LastOfOrder(order, p.Of(RoutingAccount(x)));
    }
  }

  lemma CopiesOneMore(nodes: seq<Node>, M: Moves, p: Placement, d: Shard, order: seq<Shard>, x: Tx)
    requires order != [] && forall i :: 0 <= i < |order| ==> order[i] < |nodes|
    ensures var (init, s) := (order[..|order| - 1], order[|order| - 1]);
            multiset(Gather(nodes, M, p, d, order))[x] ==
            multiset(Gather(nodes, M, p, d, init))[x]
            + (if RoutingAccount(x) in Leaving(M, p, s, d) then multiset(nodes[s].queue)[x] else 0)
  {
    var s := order[|order| - 1];
    CopiesSplit(nodes[s].queue, Leaving(M, p, s, d), x);
  }

  lemma LastOfOrder(order: seq<Shard>, s: Shard)
    requires order != [] && Distinct(order)
    ensures s in order <==> s in order[..|order| - 1] || s == order[|order| - 1]
    ensures order[|order| - 1] !in order[..|order| - 1] && Distinct(order[..|order| - 1])
  {
    assert order == order[..|order| - 1] + [order[|order| - 1]];
  }

  /** Over a round, the shard that must now run a transaction holds exactly as many copies of it as the
      shard that had to run it before. */
  lemma RoundMovesEveryCopy(sys: System, M: Moves, orders: seq<seq<Shard>>, x: Tx)
    requires Belong(sys) && Enabled(sys, RoundEvent(M, orders)) && InRange(sys.p, |sys.nodes|)
    ensures var sys' := Next(sys, RoundEvent(M, orders));
            && sys'.p.Of(RoutingAccount(x)) < |sys'.nodes|
            && multiset(sys'.nodes[sys'.p.Of(RoutingAccount(x))].queue)[x]
               == multiset(sys.nodes[sys.p.Of(RoutingAccount(x))].queue)[x]
  {
    var r, n := RoutingAccount(x), |sys.nodes|;
    var o, d := sys.p.Of(r), Switched(sys.p, M).Of(r);
    var kept, got := Keep(sys.nodes[d].queue, LeavingBelow(M, sys.p, d, n)), Gather(sys.nodes, M, sys.p, d, orders[d]);
    CopiesSplit(sys.nodes[d].queue, LeavingBelow(M, sys.p, d, n), x);
    CopiesGathered(sys.nodes, M, sys.p, d, orders[d], x);
    assert o in orders[d];
    assert d != o ==> x !in sys.nodes[d].queue;
  }
}
