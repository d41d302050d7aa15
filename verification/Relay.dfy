/** Cross-shard transfers over a whole run of many shards.

    A transfer between shards is executed twice: its first stage debits the sender's shard, which then
    relays it, and its second stage credits the recipient's shard. Each shard is one node here; its
    replicas agree on blocks. Messages may be delayed forever, reordered and delivered more than once. */
module Relay {
  import opened Common
  import opened Ledger

  datatype Node = Node(accounts: Accounts, executed: set<Bytes>, queue: seq<Tx>, proposal: Option<seq<Tx>>)
  /** A transaction on the chain of a shard, and whether its debit was covered. */
  datatype Entry = Entry(shard: Shard, tx: Tx, paid: bool)
  datatype Parcel = Parcel(dest: Shard, tx: Tx)
  datatype System = System(nodes: seq<Node>, sent: set<Parcel>, injected: map<Bytes, Tx>, log: seq<Entry>)

  datatype Step =
    | Inject(s: Shard, tx: Tx)
    | Propose(s: Shard, max: nat)
    | Abandon(s: Shard)
    | Commit(s: Shard)
    | Deliver(parcel: Parcel)

  function Init(n: nat): System {
    System(seq(n, _ => Node(map[], {}, [], None)), {}, map[], [])
  }

  function FirstStage(tx: Tx): Tx {
    tx.(relayed := false)
  }

  /** A first stage whose recipient lives elsewhere: it will be relayed. */
  predicate Crosses(e: Entry, p: Placement) {
    !e.tx.relayed && p.Of(e.tx.recipient) != e.shard
  }

  // ----- Steps -----

  /** The supervisor sends plain transactions to the sender's shard, and a hash identifies one transaction. */
  ghost predicate Enabled(sys: System, step: Step, p: Placement) {
    match step
    case Inject(s, tx) =>
      && s < |sys.nodes| && p.Of(tx.sender) == s && !tx.relayed && !tx.hasBroker
      && (tx.hash in sys.injected ==> sys.injected[tx.hash] == tx)
    case Propose(s, _) => s < |sys.nodes| && sys.nodes[s].proposal.None?
    case Abandon(s) => s < |sys.nodes|
    case Commit(s) => s < |sys.nodes| && sys.nodes[s].proposal.Some?
    case Deliver(parcel) => parcel in sys.sent && parcel.dest < |sys.nodes|
  }

  function Enqueue(sys: System, s: Shard, tx: Tx): System
    requires s < |sys.nodes|
  {
    sys.(nodes := sys.nodes[s := sys.nodes[s].(queue := sys.nodes[s].queue + [tx])])
  }

  /** Committing the i-th transaction of a block: execute, index, relay if it crosses. */
  function CommitTx(sys: System, s: Shard, i: nat, tx: Tx, p: Placement): System
    requires s < |sys.nodes|
  {
    var node := sys.nodes[s];
    var e := Entry(s, tx, !Rejected(node.accounts, tx, s, p));
    System(sys.nodes[s := node.(accounts := ExecTx(node.accounts, i, tx, s, p), executed := node.executed + {tx.hash})],
           sys.sent + (if Crosses(e, p) then {Parcel(p.Of(tx.recipient), tx.(relayed := true))} else {}),
           sys.injected, sys.log + [e])
  }

  function CommitBody(sys: System, s: Shard, body: seq<Tx>, p: Placement): (sys': System)
    requires s < |sys.nodes|
    ensures |sys'.nodes| == |sys.nodes|
  {
    if body == [] then sys else
      CommitTx(CommitBody(sys, s, body[..|body| - 1], p), s, |body| - 1, body[|body| - 1], p)
  }

  function Finish(sys: System, s: Shard, body: seq<Tx>): System
    requires s < |sys.nodes|
  {
    sys.(nodes := sys.nodes[s := sys.nodes[s].(queue := Without(sys.nodes[s].queue, HashSet(body)), proposal := None)])
  }

  function Next(sys: System, step: Step, p: Placement): System
    requires Enabled(sys, step, p)
  {
    match step
    case Inject(s, tx) => Enqueue(sys, s, tx).(injected := sys.injected[tx.hash := tx])
    case Propose(s, max) =>
      var node := sys.nodes[s];
      var k := if |node.queue| < max then |node.queue| else max;
      var proposal := Some(Fresh(node.queue[..k], node.executed));
      sys.(nodes := sys.nodes[s := node.(queue := node.queue[k..], proposal := proposal)])
    case Abandon(s) => sys.(nodes := sys.nodes[s := sys.nodes[s].(proposal := None)])
    case Commit(s) => Finish(CommitBody(sys, s, sys.nodes[s].proposal.value, p), s, sys.nodes[s].proposal.value)
    case Deliver(parcel) => Enqueue(sys, parcel.dest, parcel.tx)
  }

  /** A committed block changes its shard's accounts exactly as block execution does, and indexes its body. */
  lemma {:induction false} CommitIsExecution(sys: System, s: Shard, body: seq<Tx>, p: Placement)
    requires s < |sys.nodes|
    ensures var node := CommitBody(sys, s, body, p).nodes[s];
            && node.accounts == Exec(sys.nodes[s].accounts, body, s, p)
            && node.executed == sys.nodes[s].executed + HashSet(body)
            && node.queue == sys.nodes[s].queue && node.proposal == sys.nodes[s].proposal
  {
    if body != [] {
      CommitIsExecution(sys, s, body[..|body| - 1], p);
      HashSetStep(body, |body| - 1);
      assert body[..|body|] == body;
    } else {
      assert HashSet(body) == {};
    }
  }

  // ----- Value -----

  function Bal(nodes: seq<Node>, p: Placement, a: Addr): int {
    if p.Of(a) < |nodes| then BalanceOf(nodes[p.Of(a)].accounts, a) else INIT_BALANCE
  }

  /** The balances of a set of accounts, each read from the shard that owns it. */
  ghost function SumBal(A: set<Addr>, nodes: seq<Node>, p: Placement): int {
    if A == {} then 0 else
      var a :| a in A;
      Bal(nodes, p, a) + SumBal(A - {a}, nodes, p)
  }

  /** Value that left its sender and that no second stage has credited yet. */
  function Outstanding(log: seq<Entry>, credited: set<Bytes>, p: Placement): int {
    if log == [] then 0 else
      var e := log[|log| - 1];
      Outstanding(log[..|log| - 1], credited, p)
      + (if Crosses(e, p) && e.paid && e.tx.hash !in credited then e.tx.value else 0)
  }

  function Credited(log: seq<Entry>): set<Bytes> {
    if log == [] then {} else
      var e := log[|log| - 1];
      Credited(log[..|log| - 1]) + (if e.tx.relayed then {e.tx.hash} else {})
  }

  /** Value credited although its debit was not covered: the relay step does not look at the rejection. */
  function Minted(log: seq<Entry>, credited: set<Bytes>, p: Placement): int {
    if log == [] then 0 else
      var e := log[|log| - 1];
      Minted(log[..|log| - 1], credited, p)
      + (if Crosses(e, p) && !e.paid && e.tx.hash in credited then e.tx.value else 0)
  }

  lemma {:induction false} SumBalRemove(A: set<Addr>, nodes: seq<Node>, p: Placement, a: Addr)
    requires a in A
    ensures SumBal(A, nodes, p) == Bal(nodes, p, a) + SumBal(A - {a}, nodes, p)
  {
    var b :| b in A && SumBal(A, nodes, p) == Bal(nodes, p, b) + SumBal(A - {b}, nodes, p);
    if a != b {
      SumBalRemove(A - {b}, nodes, p, a);
      SumBalRemove(A - {a}, nodes, p, b);
      assert A - {b} - {a} == A - {a} - {b};
    }
  }

  lemma {:induction false} SumBalSame(A: set<Addr>, nodes: seq<Node>, nodes': seq<Node>, p: Placement)
    requires forall a :: a in A ==> Bal(nodes', p, a) == Bal(nodes, p, a)
    ensures SumBal(A, nodes', p) == SumBal(A, nodes, p)
  {
    if A != {} {
      var a :| a in A && SumBal(A, nodes', p) == Bal(nodes', p, a) + SumBal(A - {a}, nodes', p);
      SumBalSame(A - {a}, nodes, nodes', p);
      SumBalRemove(A, nodes, p, a);
    }
  }

  lemma SumBalBump(A: set<Addr>, nodes: seq<Node>, nodes': seq<Node>, p: Placement, x: Addr, v: int)
    requires x in A && Bal(nodes', p, x) == Bal(nodes, p, x) + v
    requires forall a :: a != x ==> Bal(nodes', p, a) == Bal(nodes, p, a)
    ensures SumBal(A, nodes', p) == SumBal(A, nodes, p) + v
  {
    SumBalRemove(A, nodes, p, x);
    SumBalRemove(A, nodes', p, x);
    SumBalSame(A - {x}, nodes, nodes', p);
  }

  // ----- The effect of one transaction on the value held by accounts -----

  /** What a committed entry adds to the sum of all balances. */
  function Effect(e: Entry, p: Placement): int {
    if e.tx.relayed then e.tx.value
    else if Crosses(e, p) && e.paid then -e.tx.value
    else 0
  }

  /** The transaction is at the right shard for its stage. */
  predicate WellRouted(tx: Tx, s: Shard, p: Placement) {
    && !tx.hasBroker
    && (!tx.relayed ==> p.Of(tx.sender) == s)
    && (tx.relayed ==> p.Of(tx.recipient) == s != p.Of(tx.sender))
  }

  lemma AddMoves(A: set<Addr>, nodes: seq<Node>, s: Shard, st: Accounts, x: Addr, i: nat, v: int, p: Placement)
    requires s < |nodes| && p.Of(x) == s && x in A
    ensures SumBal(A, nodes[s := nodes[s].(accounts := Add(st, x, i, v))], p)
         == SumBal(A, nodes[s := nodes[s].(accounts := st)], p) + v
  {
    SumBalBump(A, nodes[s := nodes[s].(accounts := st)], nodes[s := nodes[s].(accounts := Add(st, x, i, v))], p, x, v);
  }

  lemma ExecTxEffect(A: set<Addr>, nodes: seq<Node>, s: Shard, i: nat, tx: Tx, p: Placement)
    requires s < |nodes| && WellRouted(tx, s, p) && tx.sender in A && tx.recipient in A
    ensures var st := nodes[s].accounts;
            SumBal(A, nodes[s := nodes[s].(accounts := ExecTx(st, i, tx, s, p))], p)
            == SumBal(A, nodes, p) + Effect(Entry(s, tx, !Rejected(st, tx, s, p)), p)
  {
    var st := nodes[s].accounts;
    assert nodes[s := nodes[s].(accounts := st)] == nodes;
    if !Rejected(st, tx, s, p) {
      var st1 := if HasDebit(tx, s, p) then Add(st, tx.sender, i, -tx.value) else st;
      if HasDebit(tx, s, p) {
        AddMoves(A, nodes, s, st, tx.sender, i, -tx.value, p);
      }
      if HasCredit(tx, s, p) {
        AddMoves(A, nodes, s, st1, tx.recipient, i, tx.value, p);
      }
    }
  }

  // ----- What every run keeps -----

  /** A transaction a shard holds: an injected one, at the right shard, and relayed only once its first
      stage is on the sender's chain. */
  ghost predicate Legit(nodes: seq<Node>, injected: map<Bytes, Tx>, s: Shard, tx: Tx, p: Placement) {
    && tx.hash in injected && injected[tx.hash] == FirstStage(tx)
    && WellRouted(tx, s, p)
    && p.Of(tx.sender) < |nodes|
    && (tx.relayed ==> tx.hash in nodes[p.Of(tx.sender)].executed)
  }

  /** Exactly once: the log and the per-shard indexes list the same executions, each once, and every
      second stage comes after a relayed first stage of the same transaction. */
  ghost predicate LogExact(sys: System, p: Placement) {
    EntriesLegit(sys, p) && IndexLogged(sys) && NoRepeats(sys.log) && CreditsFollowDebits(sys.log, p)
  }

  ghost predicate EntriesLegit(sys: System, p: Placement) {
    forall i :: 0 <= i < |sys.log| ==>
      && sys.log[i].shard < |sys.nodes|
      && Legit(sys.nodes, sys.injected, sys.log[i].shard, sys.log[i].tx, p)
      && sys.log[i].tx.hash in sys.nodes[sys.log[i].shard].executed && sys.log[i].tx.hash != []
  }

  ghost predicate IndexLogged(sys: System) {
    forall s, h :: 0 <= s < |sys.nodes| && h in sys.nodes[s].executed ==> Logged(sys.log, s, h)
  }

  ghost predicate NoRepeats(log: seq<Entry>) {
    forall i, j :: 0 <= i < j < |log| ==> !SameExecution(log[i], log[j])
  }

  ghost predicate CreditsFollowDebits(log: seq<Entry>, p: Placement) {
    forall j :: 0 <= j < |log| && log[j].tx.relayed ==> DebitedBefore(log, j, p)
  }

  ghost predicate Logged(log: seq<Entry>, s: Shard, h: Bytes) {
    exists i :: 0 <= i < |log| && log[i].shard == s && log[i].tx.hash == h
  }

  predicate SameExecution(e: Entry, f: Entry) {
    e.shard == f.shard && e.tx.hash == f.tx.hash
  }

  ghost predicate DebitedBefore(log: seq<Entry>, j: nat, p: Placement)
    requires j < |log|
  {
    exists i :: 0 <= i < j && Crosses(log[i], p) && log[i].tx == FirstStage(log[j].tx)
  }

  ghost predicate AllLegit(sys: System, s: Shard, txs: seq<Tx>, p: Placement) {
    forall tx :: tx in txs ==> Legit(sys.nodes, sys.injected, s, tx, p)
  }

  ghost predicate PoolsLegit(sys: System, p: Placement) {
    && (forall s :: 0 <= s < |sys.nodes| ==>
          && AllLegit(sys, s, sys.nodes[s].queue, p)
          && (sys.nodes[s].proposal.Some? ==> Proposable(sys, s, sys.nodes[s].proposal.value, p)))
    && (forall q :: q in sys.sent ==> Legit(sys.nodes, sys.injected, q.dest, q.tx, p))
  }

  ghost predicate Proposable(sys: System, s: Shard, body: seq<Tx>, p: Placement)
    requires s < |sys.nodes|
  {
    && AllLegit(sys, s, body, p)
    && Distinct(Hashes(body))
    && forall tx :: tx in body ==> tx.hash != [] && tx.hash !in sys.nodes[s].executed
  }

  ghost predicate Balanced(sys: System, A: set<Addr>, p: Placement) {
    SumBal(A, sys.nodes, p) + Outstanding(sys.log, Credited(sys.log), p) ==
    |A| * INIT_BALANCE + Minted(sys.log, Credited(sys.log), p)
  }

  ghost predicate Touches(sys: System, A: set<Addr>) {
    forall h :: h in sys.injected ==> sys.injected[h].sender in A && sys.injected[h].recipient in A
  }

  // ----- Outstanding value -----

  lemma {:induction false} CreditedMember(log: seq<Entry>, h: Bytes)
    ensures h in Credited(log) <==> exists i :: 0 <= i < |log| && log[i].tx.relayed && log[i].tx.hash == h
  {
    if log != [] {
      var init := log[..|log| - 1];
      CreditedMember(init, h);
      if i :| 0 <= i < |log| && log[i].tx.relayed && log[i].tx.hash == h {
        assert i < |init| ==> init[i] == log[i];
      }
      if i :| 0 <= i < |init| && init[i].tx.relayed && init[i].tx.hash == h {
        assert log[i] == init[i];
      }
    }
  }

  lemma {:induction false} OutstandingIgnores(log: seq<Entry>, credited: set<Bytes>, h: Bytes, p: Placement)
    requires forall i :: 0 <= i < |log| && Crosses(log[i], p) ==> log[i].tx.hash != h
    ensures Outstanding(log, credited + {h}, p) == Outstanding(log, credited, p)
    ensures Minted(log, credited + {h}, p) == Minted(log, credited, p)
  {
    if log != [] {
      OutstandingIgnores(log[..|log| - 1], credited, h, p);
    }
  }

  /** Crediting a transaction settles exactly its own value if its debit was covered, and creates it otherwise. */
  lemma {:induction false} OutstandingSettles(log: seq<Entry>, credited: set<Bytes>, k: nat, p: Placement)
    requires k < |log| && Crosses(log[k], p) && log[k].tx.hash !in credited
    requires forall i :: 0 <= i < |log| && i != k && Crosses(log[i], p) ==> log[i].tx.hash != log[k].tx.hash
    ensures var (credited', v) := (credited + {log[k].tx.hash}, log[k].tx.value);
            && Outstanding(log, credited', p) == Outstanding(log, credited, p) - (if log[k].paid then v else 0)
            && Minted(log, credited', p) == Minted(log, credited, p) + (if log[k].paid then 0 else v)
  {
    var init := log[..|log| - 1];
    if k < |init| {
      assert init[k] == log[k];
      assert forall i :: 0 <= i < |init| ==> init[i] == log[i];
      OutstandingSettles(init, credited, k, p);
    } else {
      OutstandingIgnores(init, credited, log[k].tx.hash, p);
    }
  }

  // ----- One committed transaction -----

  lemma CreditIsIndexed(sys: System, s: Shard, tx: Tx, j: nat, p: Placement)
    requires LogExact(sys, p) && s < |sys.nodes| && Legit(sys.nodes, sys.injected, s, tx, p)
    requires j < |sys.log| && sys.log[j].tx.relayed && sys.log[j].tx.hash == tx.hash
    ensures tx.hash in sys.nodes[s].executed
  {
    var e := sys.log[j];
    assert Legit(sys.nodes, sys.injected, e.shard, e.tx, p);
    assert FirstStage(e.tx) == FirstStage(tx);
    assert e.tx.sender == tx.sender && e.tx.recipient == tx.recipient;
  }

  lemma NotYetCredited(sys: System, s: Shard, tx: Tx, p: Placement)
    requires LogExact(sys, p) && s < |sys.nodes| && Legit(sys.nodes, sys.injected, s, tx, p)
    requires tx.hash !in sys.nodes[s].executed
    ensures tx.hash !in Credited(sys.log)
  {
    CreditedMember(sys.log, tx.hash);
    if j :| 0 <= j < |sys.log| && sys.log[j].tx.relayed && sys.log[j].tx.hash == tx.hash {
      CreditIsIndexed(sys, s, tx, j, p);
    }
  }

  /** Committing one transaction keeps the books: what leaves accounts is outstanding, what is credited
      was outstanding, and only crediting an uncovered relay adds value. */
  lemma CommitTxBalances(sys: System, s: Shard, i: nat, tx: Tx, A: set<Addr>, p: Placement)
    requires s < |sys.nodes| && LogExact(sys, p) && Balanced(sys, A, p) && Touches(sys, A)
    requires Legit(sys.nodes, sys.injected, s, tx, p) && tx.hash !in sys.nodes[s].executed
    ensures Balanced(CommitTx(sys, s, i, tx, p), A, p)
  {
    var sys' := CommitTx(sys, s, i, tx, p);
    var e := Entry(s, tx, !Rejected(sys.nodes[s].accounts, tx, s, p));
    assert sys.injected[tx.hash] == FirstStage(tx);
    ExecTxEffect(A, sys.nodes, s, i, tx, p);
    SumBalSame(A, sys.nodes[s := sys.nodes[s].(accounts := ExecTx(sys.nodes[s].accounts, i, tx, s, p))], sys'.nodes, p);
    NotYetCredited(sys, s, tx, p);
    assert sys'.log[..|sys.log|] == sys.log;
    if tx.relayed {
      var k := DebitOf(sys, s, tx, p);
      OutstandingSettles(sys.log, Credited(sys.log), k, p);
    } else {
      assert Credited(sys'.log) == Credited(sys.log);
    }
  }

  /** The first stage a relayed transaction comes from is on the log, once. */
  lemma DebitOf(sys: System, s: Shard, tx: Tx, p: Placement) returns (k: nat)
    requires LogExact(sys, p) && s < |sys.nodes| && Legit(sys.nodes, sys.injected, s, tx, p) && tx.relayed
    ensures k < |sys.log| && Crosses(sys.log[k], p) && sys.log[k].tx == FirstStage(tx)
    ensures forall i :: 0 <= i < |sys.log| && i != k && Crosses(sys.log[i], p) ==> sys.log[i].tx.hash != tx.hash
  {
    var t := p.Of(tx.sender);
    assert Logged(sys.log, t, tx.hash);
    k :| 0 <= k < |sys.log| && sys.log[k].shard == t && sys.log[k].tx.hash == tx.hash;
    assert Legit(sys.nodes, sys.injected, t, sys.log[k].tx, p);
    assert FirstStage(sys.log[k].tx) == FirstStage(tx);
    assert sys.log[k].tx.sender == tx.sender && sys.log[k].tx.recipient == tx.recipient;
    forall i | 0 <= i < |sys.log| && Crosses(sys.log[i], p) && sys.log[i].tx.hash == tx.hash
      ensures i == k
    {
      OneDebit(sys, i, k, p);
    }
  }

  lemma OneDebit(sys: System, i: nat, k: nat, p: Placement)
    requires LogExact(sys, p) && i < |sys.log| && k < |sys.log|
    requires Crosses(sys.log[i], p) && Crosses(sys.log[k], p) && sys.log[i].tx.hash == sys.log[k].tx.hash
    ensures i == k
  {
    assert Legit(sys.nodes, sys.injected, sys.log[i].shard, sys.log[i].tx, p);
    assert Legit(sys.nodes, sys.injected, sys.log[k].shard, sys.log[k].tx, p);
    assert FirstStage(sys.log[i].tx) == FirstStage(sys.log[k].tx);
    assert SameExecution(sys.log[i], sys.log[k]) && SameExecution(sys.log[k], sys.log[i]);
  }

  // ----- One committed transaction and the rest of the invariant -----

  lemma LegitKeeps(nodes: seq<Node>, nodes': seq<Node>, injected: map<Bytes, Tx>, injected': map<Bytes, Tx>,
                   s: Shard, tx: Tx, p: Placement)
    requires Legit(nodes, injected, s, tx, p) && Grows(nodes, nodes')
    requires forall h :: h in injected ==> h in injected' && injected'[h] == injected[h]
    ensures Legit(nodes', injected', s, tx, p)
  {
  }

  /** Indexes only ever gain hashes. */
  ghost predicate Grows(nodes: seq<Node>, nodes': seq<Node>) {
    |nodes'| == |nodes| && forall s :: 0 <= s < |nodes| ==> nodes[s].executed <= nodes'[s].executed
  }

  lemma CommitTxEntries(sys: System, s: Shard, i: nat, tx: Tx, p: Placement)
    requires s < |sys.nodes| && EntriesLegit(sys, p) && IndexLogged(sys)
    requires Legit(sys.nodes, sys.injected, s, tx, p) && tx.hash != []
    ensures EntriesLegit(CommitTx(sys, s, i, tx, p), p) && IndexLogged(CommitTx(sys, s, i, tx, p))
  {
    var sys' := CommitTx(sys, s, i, tx, p);
    var n := |sys.log|;
    forall j | 0 <= j < |sys'.log|
      ensures sys'.log[j].shard < |sys'.nodes|
      ensures Legit(sys'.nodes, sys'.injected, sys'.log[j].shard, sys'.log[j].tx, p)
      ensures sys'.log[j].tx.hash in sys'.nodes[sys'.log[j].shard].executed && sys'.log[j].tx.hash != []
    {
      var e := sys'.log[j];
      assert j < n ==> e == sys.log[j];
      LegitKeeps(sys.nodes, sys'.nodes, sys.injected, sys'.injected, e.shard, e.tx, p);
    }
    forall t, h | 0 <= t < |sys'.nodes| && h in sys'.nodes[t].executed
      ensures Logged(sys'.log, t, h)
    {
      if h in sys.nodes[t].executed {
        var j :| 0 <= j < n && sys.log[j].shard == t && sys.log[j].tx.hash == h;
        assert sys'.log[j] == sys.log[j];
      } else {
        assert sys'.log[n].shard == t && sys'.log[n].tx.hash == h;
      }
    }
  }

  lemma CommitTxOrder(sys: System, s: Shard, i: nat, tx: Tx, p: Placement)
    requires s < |sys.nodes| && LogExact(sys, p)
    requires Legit(sys.nodes, sys.injected, s, tx, p) && tx.hash !in sys.nodes[s].executed
    ensures NoRepeats(CommitTx(sys, s, i, tx, p).log) && CreditsFollowDebits(CommitTx(sys, s, i, tx, p).log, p)
  {
    var log, log' := sys.log, CommitTx(sys, s, i, tx, p).log;
    assert forall j :: 0 <= j < |log| ==> log'[j] == log[j];
    forall j | 0 <= j < |log'| && log'[j].tx.relayed
      ensures DebitedBefore(log', j, p)
    {
      if j < |log| {
        assert DebitedBefore(log, j, p);
        var k :| 0 <= k < j && Crosses(log[k], p) && log[k].tx == FirstStage(log[j].tx);
        assert log'[k] == log[k];
      } else {
        var k := DebitOf(sys, s, tx, p);
        assert log'[k] == log[k];
      }
    }
  }

  // ----- A committed block -----

  /** What a block leaves alone: other shards, queues, and everything injected. */
  ghost predicate Extends(sys: System, sys': System, s: Shard) {
    && Grows(sys.nodes, sys'.nodes) && sys'.injected == sys.injected && sys.sent <= sys'.sent
    && forall t :: 0 <= t < |sys.nodes| ==>
         && sys'.nodes[t].queue == sys.nodes[t].queue && sys'.nodes[t].proposal == sys.nodes[t].proposal
         && (t != s ==> sys'.nodes[t].executed == sys.nodes[t].executed)
  }

  ghost predicate SentLegit(sys: System, p: Placement) {
    forall q :: q in sys.sent ==> Legit(sys.nodes, sys.injected, q.dest, q.tx, p)
  }

  lemma CommitTxSends(sys: System, s: Shard, i: nat, tx: Tx, p: Placement)
    requires s < |sys.nodes| && SentLegit(sys, p) && Legit(sys.nodes, sys.injected, s, tx, p)
    ensures SentLegit(CommitTx(sys, s, i, tx, p), p)
  {
    var sys' := CommitTx(sys, s, i, tx, p);
    forall q | q in sys'.sent
      ensures Legit(sys'.nodes, sys'.injected, q.dest, q.tx, p)
    {
      if q in sys.sent {
        LegitKeeps(sys.nodes, sys'.nodes, sys.injected, sys'.injected, q.dest, q.tx, p);
      } else {
        assert FirstStage(q.tx) == FirstStage(tx);
      }
    }
  }

  lemma {:induction false} CommitBodyKeeps(sys: System, s: Shard, body: seq<Tx>, A: set<Addr>, p: Placement)
    requires s < |sys.nodes| && LogExact(sys, p) && Balanced(sys, A, p) && Touches(sys, A) && SentLegit(sys, p)
    requires Proposable(sys, s, body, p)
    ensures var sys' := CommitBody(sys, s, body, p);
            LogExact(sys', p) && Balanced(sys', A, p) && SentLegit(sys', p) && Extends(sys, sys', s)
  {
    if body != [] {
      var k, init := |body| - 1, body[..|body| - 1];
      var tx := body[k];
      var mid := CommitBody(sys, s, init, p);
      ProposablePrefix(sys, s, body, p);
      CommitBodyKeeps(sys, s, init, A, p);
      CommitIsExecution(sys, s, init, p);
      LegitKeeps(sys.nodes, mid.nodes, sys.injected, mid.injected, s, tx, p);
      CommitTxEntries(mid, s, k, tx, p);
      CommitTxOrder(mid, s, k, tx, p);
      CommitTxBalances(mid, s, k, tx, A, p);
      CommitTxSends(mid, s, k, tx, p);
    }
  }

  lemma ProposablePrefix(sys: System, s: Shard, body: seq<Tx>, p: Placement)
    requires s < |sys.nodes| && body != [] && Proposable(sys, s, body, p)
    ensures Proposable(sys, s, body[..|body| - 1], p)
    ensures body[|body| - 1].hash !in HashSet(body[..|body| - 1])
    ensures Legit(sys.nodes, sys.injected, s, body[|body| - 1], p)
    ensures body[|body| - 1].hash != [] && body[|body| - 1].hash !in sys.nodes[s].executed
  {
    var init := body[..|body| - 1];
    assert forall i :: 0 <= i < |init| ==> Hashes(init)[i] == Hashes(body)[i];
    assert body[|body| - 1] in body;
    forall i | 0 <= i < |init|
      ensures init[i].hash != body[|body| - 1].hash
    {
      assert Hashes(body)[i] != Hashes(body)[|body| - 1];
    }
  }

  // ----- Every step and every run -----

  ghost predicate Inv(sys: System, A: set<Addr>, p: Placement) {
    LogExact(sys, p) && PoolsLegit(sys, p) && Balanced(sys, A, p) && Touches(sys, A)
  }

  lemma PoolsLegitKeeps(sys: System, sys': System, s: Shard, p: Placement)
    requires PoolsLegit(sys, p) && SentLegit(sys', p) && Grows(sys.nodes, sys'.nodes) && s < |sys.nodes|
    requires forall h :: h in sys.injected ==> h in sys'.injected && sys'.injected[h] == sys.injected[h]
    requires forall t :: 0 <= t < |sys.nodes| && t != s ==>
               && sys'.nodes[t].queue == sys.nodes[t].queue && sys'.nodes[t].proposal == sys.nodes[t].proposal
               && sys'.nodes[t].executed == sys.nodes[t].executed
    requires AllLegit(sys', s, sys'.nodes[s].queue, p)
    requires sys'.nodes[s].proposal.Some? ==> Proposable(sys', s, sys'.nodes[s].proposal.value, p)
    ensures PoolsLegit(sys', p)
  {
    forall t, tx | 0 <= t < |sys.nodes| && Legit(sys.nodes, sys.injected, t, tx, p)
      ensures Legit(sys'.nodes, sys'.injected, t, tx, p)
    {
      LegitKeeps(sys.nodes, sys'.nodes, sys.injected, sys'.injected, t, tx, p);
    }
  }

  lemma CommitKeeps(sys: System, s: Shard, A: set<Addr>, p: Placement)
    requires Inv(sys, A, p) && Enabled(sys, Commit(s), p)
    ensures Inv(Next(sys, Commit(s), p), A, p)
  {
    var body := sys.nodes[s].proposal.value;
    var mid := CommitBody(sys, s, body, p);
    CommitBodyKeeps(sys, s, body, A, p);
    var sys' := Finish(mid, s, body);
    SameBooks(mid, sys', A, p);
    FinishedQueue(sys, mid, s, body, p);
    PoolsLegitKeeps(sys, sys', s, p);
  }

  lemma FinishedQueue(sys: System, mid: System, s: Shard, body: seq<Tx>, p: Placement)
    requires s < |sys.nodes| && AllLegit(sys, s, sys.nodes[s].queue, p) && Extends(sys, mid, s) && SentLegit(mid, p)
    ensures AllLegit(Finish(mid, s, body), s, Finish(mid, s, body).nodes[s].queue, p)
    ensures SentLegit(Finish(mid, s, body), p) && Grows(sys.nodes, Finish(mid, s, body).nodes)
  {
    var sys' := Finish(mid, s, body);
    forall tx | tx in sys'.nodes[s].queue
      ensures Legit(sys'.nodes, sys'.injected, s, tx, p)
    {
      WithoutMembers(sys.nodes[s].queue, HashSet(body), tx);
      LegitKeeps(sys.nodes, sys'.nodes, sys.injected, sys'.injected, s, tx, p);
    }
    forall q | q in sys'.sent
      ensures Legit(sys'.nodes, sys'.injected, q.dest, q.tx, p)
    {
      LegitKeeps(mid.nodes, sys'.nodes, mid.injected, sys'.injected, q.dest, q.tx, p);
    }
  }

  /** Steps that touch neither accounts, indexes nor the log keep the books as they are. */
  lemma SameBooks(sys: System, sys': System, A: set<Addr>, p: Placement)
    requires LogExact(sys, p) && Balanced(sys, A, p) && sys'.log == sys.log && |sys'.nodes| == |sys.nodes|
    requires forall t :: 0 <= t < |sys.nodes| ==>
               sys'.nodes[t].executed == sys.nodes[t].executed && sys'.nodes[t].accounts == sys.nodes[t].accounts
    requires forall h :: h in sys.injected ==> h in sys'.injected && sys'.injected[h] == sys.injected[h]
    ensures LogExact(sys', p) && Balanced(sys', A, p)
  {
    SumBalSame(A, sys.nodes, sys'.nodes, p);
    forall i | 0 <= i < |sys'.log|
      ensures Legit(sys'.nodes, sys'.injected, sys'.log[i].shard, sys'.log[i].tx, p)
    {
      LegitKeeps(sys.nodes, sys'.nodes, sys.injected, sys'.injected, sys.log[i].shard, sys.log[i].tx, p);
    }
  }

  lemma EnqueueKeeps(sys: System, s: Shard, tx: Tx, injected: map<Bytes, Tx>, A: set<Addr>, p: Placement)
    requires Inv(sys, A, p) && s < |sys.nodes|
    requires forall h :: h in sys.injected ==> h in injected && injected[h] == sys.injected[h]
    requires forall h :: h in injected ==> injected[h].sender in A && injected[h].recipient in A
    requires Legit(sys.nodes, injected, s, tx, p)
    ensures Inv(Enqueue(sys, s, tx).(injected := injected), A, p)
  {
    var sys' := Enqueue(sys, s, tx).(injected := injected);
    SameBooks(sys, sys', A, p);
    forall t, x | Legit(sys.nodes, sys.injected, t, x, p)
      ensures Legit(sys'.nodes, sys'.injected, t, x, p)
    {
      LegitKeeps(sys.nodes, sys'.nodes, sys.injected, sys'.injected, t, x, p);
    }
    LegitKeeps(sys.nodes, sys'.nodes, injected, injected, s, tx, p);
    PoolsLegitKeeps(sys, sys', s, p);
  }

  lemma ProposeKeeps(sys: System, s: Shard, max: nat, A: set<Addr>, p: Placement)
    requires Inv(sys, A, p) && Enabled(sys, Propose(s, max), p)
    ensures Inv(Next(sys, Propose(s, max), p), A, p)
  {
    var sys' := Next(sys, Propose(s, max), p);
    var node := sys.nodes[s];
    var k := if |node.queue| < max then |node.queue| else max;
    SameBooks(sys, sys', A, p);
    FreshIsUsable(node.queue[..k], node.executed);
    forall t, x | Legit(sys.nodes, sys.injected, t, x, p)
      ensures Legit(sys'.nodes, sys'.injected, t, x, p)
    {
      LegitKeeps(sys.nodes, sys'.nodes, sys.injected, sys'.injected, t, x, p);
    }
    PoolsLegitKeeps(sys, sys', s, p);
  }

  lemma AbandonKeeps(sys: System, s: Shard, A: set<Addr>, p: Placement)
    requires Inv(sys, A, p) && s < |sys.nodes|
    ensures Inv(Next(sys, Abandon(s), p), A, p)
  {
    var sys' := Next(sys, Abandon(s), p);
    SameBooks(sys, sys', A, p);
    forall t, x | Legit(sys.nodes, sys.injected, t, x, p)
      ensures Legit(sys'.nodes, sys'.injected, t, x, p)
    {
      LegitKeeps(sys.nodes, sys'.nodes, sys.injected, sys'.injected, t, x, p);
    }
    PoolsLegitKeeps(sys, sys', s, p);
  }

  lemma StepKeeps(sys: System, step: Step, A: set<Addr>, p: Placement)
    requires Inv(sys, A, p) && Enabled(sys, step, p)
    requires step.Inject? ==> step.tx.sender in A && step.tx.recipient in A
    ensures Inv(Next(sys, step, p), A, p) && |Next(sys, step, p).nodes| == |sys.nodes|
  {
    match step
    case Inject(s, tx) =>
      EnqueueKeeps(sys, s, tx, sys.injected[tx.hash := tx], A, p);
    case Propose(s, max) =>
      ProposeKeeps(sys, s, max, A, p);
    case Abandon(s) =>
      AbandonKeeps(sys, s, A, p);
    case Commit(s) =>
      CommitKeeps(sys, s, A, p);
    case Deliver(q) =>
      EnqueueKeeps(sys, q.dest, q.tx, sys.injected, A, p);
  }

  ghost predicate Reaches(sys: System, steps: seq<Step>, sys': System, p: Placement)
    decreases |steps|
  {
    if steps == [] then sys' == sys
    else Enabled(sys, steps[0], p) && Reaches(Next(sys, steps[0], p), steps[1..], sys', p)
  }

  /** The accounts a run can ever touch. */
  ghost predicate Covers(A: set<Addr>, steps: seq<Step>) {
    forall i :: 0 <= i < |steps| && steps[i].Inject? ==> steps[i].tx.sender in A && steps[i].tx.recipient in A
  }

  lemma {:induction false} RunKeeps(sys: System, steps: seq<Step>, sys': System, A: set<Addr>, p: Placement)
    requires Inv(sys, A, p) && Covers(A, steps) && Reaches(sys, steps, sys', p)
    ensures Inv(sys', A, p)
    decreases |steps|
  {
    if steps != [] {
      StepKeeps(sys, steps[0], A, p);
      assert forall i :: 0 <= i < |steps| - 1 ==> steps[1..][i] == steps[i + 1];
      RunKeeps(Next(sys, steps[0], p), steps[1..], sys', A, p);
    }
  }

  lemma {:induction false} InitSum(A: set<Addr>, n: nat, p: Placement)
    ensures SumBal(A, Init(n).nodes, p) == |A| * INIT_BALANCE
  {
    if A != {} {
      var a :| a in A && SumBal(A, Init(n).nodes, p) == Bal(Init(n).nodes, p, a) + SumBal(A - {a}, Init(n).nodes, p);
      InitSum(A - {a}, n, p);
      assert Bal(Init(n).nodes, p, a) == INIT_BALANCE;
      assert |A| == |A - {a}| + 1;
    }
  }

  lemma InitInv(A: set<Addr>, n: nat, p: Placement)
    ensures Inv(Init(n), A, p)
  {
    InitSum(A, n, p);
  }

  // ----- The theorems -----

  /** Over every run of every number of shards: all balances plus debited value not yet credited equal the
      initial balances plus the value credited without a covered debit; and the log is exact. */
  lemma RelayAccounting(n: nat, steps: seq<Step>, sys: System, A: set<Addr>, p: Placement)
    requires Reaches(Init(n), steps, sys, p) && Covers(A, steps)
    ensures Balanced(sys, A, p) && LogExact(sys, p)
  {
    InitInv(A, n, p);
    RunKeeps(Init(n), steps, sys, A, p);
  }

  predicate NonNegative(log: seq<Entry>) {
    forall i :: 0 <= i < |log| ==> log[i].tx.value >= 0
  }

  /** Every logged second stage has a covered first stage, or moves nothing. */
  predicate EveryCreditPaid(log: seq<Entry>, p: Placement) {
    forall i, j :: 0 <= i < |log| && 0 <= j < |log| && Crosses(log[i], p) && SecondStageOf(log[j], log[i]) ==>
      log[i].paid || log[i].tx.value == 0
  }

  predicate SecondStageOf(f: Entry, e: Entry) {
    f.tx.relayed && f.tx.hash == e.tx.hash
  }

  /** Every relayed first stage was covered, or moves nothing. */
  predicate EveryRelayPaid(log: seq<Entry>, p: Placement) {
    forall i :: 0 <= i < |log| && Crosses(log[i], p) ==> log[i].paid || log[i].tx.value == 0
  }

  predicate CreditsPaid(log: seq<Entry>, credited: set<Bytes>, p: Placement) {
    forall i :: 0 <= i < |log| && Crosses(log[i], p) && log[i].tx.hash in credited ==>
      log[i].paid || log[i].tx.value == 0
  }

  lemma {:induction false} NothingMinted(log: seq<Entry>, credited: set<Bytes>, p: Placement)
    requires NonNegative(log)
    ensures Minted(log, credited, p) >= 0 && (Minted(log, credited, p) == 0 <==> CreditsPaid(log, credited, p))
  {
    if log != [] {
      var init := log[..|log| - 1];
      NothingMinted(init, credited, p);
      assert log == init + [log[|log| - 1]];
    }
  }

  lemma CreditsPaidByEntry(log: seq<Entry>, p: Placement)
    ensures CreditsPaid(log, Credited(log), p) <==> EveryCreditPaid(log, p)
  {
    forall i | 0 <= i < |log|
      ensures log[i].tx.hash in Credited(log) <==> exists j :: 0 <= j < |log| && SecondStageOf(log[j], log[i])
    {
      CreditedMember(log, log[i].tx.hash);
      if j :| 0 <= j < |log| && log[j].tx.relayed && log[j].tx.hash == log[i].tx.hash {
        assert SecondStageOf(log[j], log[i]);
      }
    }
  }

  ghost predicate Conserved(sys: System, A: set<Addr>, p: Placement) {
    SumBal(A, sys.nodes, p) + Outstanding(sys.log, Credited(sys.log), p) == |A| * INIT_BALANCE
  }

  /** Balances plus debited-but-uncredited value are conserved over a run exactly when every credited
      transfer was covered at its sender; while they are not, value has only been created. */
  lemma RelayConservation(n: nat, steps: seq<Step>, sys: System, A: set<Addr>, p: Placement)
    requires Reaches(Init(n), steps, sys, p) && Covers(A, steps) && NonNegative(sys.log)
    ensures Conserved(sys, A, p) <==> EveryCreditPaid(sys.log, p)
    ensures SumBal(A, sys.nodes, p) + Outstanding(sys.log, Credited(sys.log), p) >= |A| * INIT_BALANCE
    ensures EveryRelayPaid(sys.log, p) ==> Conserved(sys, A, p)
  {
    RelayAccounting(n, steps, sys, A, p);
    NothingMinted(sys.log, Credited(sys.log), p);
    CreditsPaidByEntry(sys.log, p);
  }

  /** No transaction is credited, or debited, twice; no credit lacks an earlier relayed debit. */
  lemma ExactlyOnce(n: nat, steps: seq<Step>, sys: System, p: Placement, i: nat, j: nat)
    requires Reaches(Init(n), steps, sys, p) && i < j < |sys.log| && sys.log[i].tx.hash == sys.log[j].tx.hash
    ensures !sys.log[i].tx.relayed && sys.log[j].tx.relayed && sys.log[j].tx == sys.log[i].tx.(relayed := true)
    ensures Crosses(sys.log[i], p)
  {
    var A := Addresses(steps);
    RelayAccounting(n, steps, sys, A, p);
    var e, f := sys.log[i], sys.log[j];
    assert Legit(sys.nodes, sys.injected, e.shard, e.tx, p) && Legit(sys.nodes, sys.injected, f.shard, f.tx, p);
    assert FirstStage(e.tx) == FirstStage(f.tx);
    assert e.tx.sender == f.tx.sender && e.tx.recipient == f.tx.recipient;
    assert !SameExecution(e, f);
    if e.tx.relayed {
      SecondStageLater(sys, j, i, p);
    }
  }

  lemma SecondStageLater(sys: System, i: nat, j: nat, p: Placement)
    requires LogExact(sys, p) && i < |sys.log| && j < |sys.log|
    requires !sys.log[i].tx.relayed && sys.log[j].tx.relayed && sys.log[i].tx.hash == sys.log[j].tx.hash
    ensures i < j
  {
    assert DebitedBefore(sys.log, j, p);
    var k :| 0 <= k < j && Crosses(sys.log[k], p) && sys.log[k].tx == FirstStage(sys.log[j].tx);
    assert Legit(sys.nodes, sys.injected, sys.log[i].shard, sys.log[i].tx, p);
    assert Legit(sys.nodes, sys.injected, sys.log[k].shard, sys.log[k].tx, p);
    assert FirstStage(sys.log[i].tx) == FirstStage(sys.log[k].tx);
    assert SameExecution(sys.log[i], sys.log[k]) && SameExecution(sys.log[k], sys.log[i]);
    assert i == k;
  }

  function Addresses(steps: seq<Step>): (A: set<Addr>)
    ensures Covers(A, steps)
  {
    (set i | 0 <= i < |steps| && steps[i].Inject? :: steps[i].tx.sender)
    + (set i | 0 <= i < |steps| && steps[i].Inject? :: steps[i].tx.recipient)
  }

  // ----- What a commit relays -----

  /** The second stages a block sends to shard d, in block order. */
  function Outgoing(body: seq<Tx>, d: Shard, s: Shard, p: Placement): seq<Tx> {
    if body == [] then [] else
      var tx := body[|body| - 1];
      Outgoing(body[..|body| - 1], d, s, p)
      + (if p.Of(tx.recipient) == d && d != s then [tx.(relayed := true)] else [])
  }

  /** A transaction at a shard that its stage does not belong to. */
  predicate Misrouted(tx: Tx, s: Shard, p: Placement) {
    (!tx.relayed && p.Of(tx.sender) != s) || (tx.relayed && p.Of(tx.recipient) != s)
  }

  /** In every reachable state, no block about to be committed holds a misrouted transaction. */
  lemma NoMisroutedProposal(n: nat, steps: seq<Step>, sys: System, p: Placement, s: Shard, tx: Tx)
    requires Reaches(Init(n), steps, sys, p) && s < |sys.nodes|
    requires sys.nodes[s].proposal.Some? && tx in sys.nodes[s].proposal.value
    ensures !Misrouted(tx, s, p)
  {
    var A := Addresses(steps);
    InitInv(A, n, p);
    RunKeeps(Init(n), steps, sys, A, p);
    assert AllLegit(sys, s, sys.nodes[s].proposal.value, p);
  }

  /** Committing a block sends exactly its outgoing lists. */
  lemma {:induction false} CommitSends(sys: System, s: Shard, body: seq<Tx>, p: Placement, q: Parcel)
    requires s < |sys.nodes| && forall tx :: tx in body ==> !Misrouted(tx, s, p)
    ensures q in CommitBody(sys, s, body, p).sent <==> q in sys.sent || q.tx in Outgoing(body, q.dest, s, p)
  {
    if body != [] {
      assert body[|body| - 1] in body;
      CommitSends(sys, s, body[..|body| - 1], p, q);
    }
  }

  // ----- An uncovered relay -----

  /** Every relayed first stage is on its way to the recipient's shard, for good. */
  ghost predicate RelaysSent(sys: System, p: Placement) {
    forall i :: 0 <= i < |sys.log| && Crosses(sys.log[i], p) ==> ParcelOf(sys.log[i].tx, p) in sys.sent
  }

  function ParcelOf(tx: Tx, p: Placement): Parcel {
    Parcel(p.Of(tx.recipient), tx.(relayed := true))
  }

  lemma {:induction false} CommitKeepsLog(sys: System, s: Shard, body: seq<Tx>, p: Placement)
    requires s < |sys.nodes|
    ensures sys.log <= CommitBody(sys, s, body, p).log
    ensures RelaysSent(sys, p) ==> RelaysSent(CommitBody(sys, s, body, p), p)
  {
    if body != [] {
      CommitKeepsLog(sys, s, body[..|body| - 1], p);
    }
  }

  lemma {:induction false} RunSends(sys: System, steps: seq<Step>, sys': System, p: Placement)
    requires Reaches(sys, steps, sys', p) && RelaysSent(sys, p)
    ensures RelaysSent(sys', p) && sys.log <= sys'.log && |sys'.nodes| == |sys.nodes|
    decreases |steps|
  {
    if steps != [] {
      if steps[0].Commit? {
        CommitKeepsLog(sys, steps[0].s, sys.nodes[steps[0].s].proposal.value, p);
      }
      RunSends(Next(sys, steps[0], p), steps[1..], sys', p);
    }
  }

  lemma StepThen(sys: System, step: Step, rest: seq<Step>, sys': System, p: Placement)
    requires Enabled(sys, step, p) && Reaches(Next(sys, step, p), rest, sys', p)
    ensures Reaches(sys, [step] + rest, sys', p)
  {
    assert ([step] + rest)[1..] == rest;
  }

  lemma {:induction false} RunThen(sys: System, steps: seq<Step>, mid: System, rest: seq<Step>, sys': System,
                                   p: Placement)
    requires Reaches(sys, steps, mid, p) && Reaches(mid, rest, sys', p)
    ensures Reaches(sys, steps + rest, sys', p)
    decreases |steps|
  {
    if steps == [] {
      assert steps + rest == rest;
    } else {
      RunThen(Next(sys, steps[0], p), steps[1..], mid, rest, sys', p);
      StepThen(sys, steps[0], steps[1..] + rest, sys', p);
      assert [steps[0]] + (steps[1..] + rest) == steps + rest;
    }
  }

  lemma TwoSteps(sys: System, a: Step, b: Step, p: Placement)
    requires Enabled(sys, a, p) && Enabled(Next(sys, a, p), b, p)
    ensures Reaches(sys, [a, b], Next(Next(sys, a, p), b, p), p)
  {
    var mid := Next(sys, a, p);
    var sys' := Next(mid, b, p);
    assert Reaches(sys', [], sys', p);
    assert [b][1..] == [] && Reaches(mid, [b], sys', p);
    assert [a, b][1..] == [b];
  }

  /** Proposing and committing everything queued leaves every usable queued hash in the index. */
  lemma CommitQueue(sys: System, d: Shard, p: Placement) returns (sys': System)
    requires d < |sys.nodes| && sys.nodes[d].proposal.None?
    ensures Reaches(sys, [Propose(d, |sys.nodes[d].queue|), Commit(d)], sys', p)
    ensures |sys'.nodes| == |sys.nodes| && sys.nodes[d].executed <= sys'.nodes[d].executed
    ensures HashSet(sys.nodes[d].queue) - {[]} <= sys'.nodes[d].executed
  {
    var node := sys.nodes[d];
    var all := Propose(d, |node.queue|);
    var mid := Next(sys, all, p);
    assert node.queue[..|node.queue|] == node.queue;
    var body := Fresh(node.queue, node.executed);
    assert mid.nodes[d].proposal == Some(body);
    FreshKeepsAll(node.queue, node.executed);
    CommitIsExecution(mid, d, body, p);
    sys' := Next(mid, Commit(d), p);
    TwoSteps(sys, all, Commit(d), p);
  }

  /** Delivering a parcel, then proposing and committing everything queued, executes it. */
  lemma DeliverAndCommit(sys: System, q: Parcel, p: Placement) returns (more: seq<Step>, sys': System)
    requires q in sys.sent && q.dest < |sys.nodes| && q.tx.hash != []
    ensures Reaches(sys, more, sys', p) && (forall k :: 0 <= k < |more| ==> !more[k].Inject?)
    ensures |sys'.nodes| == |sys.nodes| && q.tx.hash in sys'.nodes[q.dest].executed
  {
    var d := q.dest;
    var mid := Next(Next(sys, Abandon(d), p), Deliver(q), p);
    assert mid.nodes[d].queue == sys.nodes[d].queue + [q.tx];
    assert mid.nodes[d].queue[|sys.nodes[d].queue|] == q.tx;
    sys' := CommitQueue(mid, d, p);
    var rest := [Propose(d, |mid.nodes[d].queue|), Commit(d)];
    TwoSteps(sys, Abandon(d), Deliver(q), p);
    RunThen(sys, [Abandon(d), Deliver(q)], mid, rest, sys', p);
    more := [Abandon(d), Deliver(q)] + rest;
  }

  ghost predicate InjectedNonNegative(sys: System) {
    forall h :: h in sys.injected ==> sys.injected[h].value >= 0
  }

  lemma {:induction false} InjectedKept(sys: System, steps: seq<Step>, sys': System, p: Placement)
    requires Reaches(sys, steps, sys', p) && forall k :: 0 <= k < |steps| ==> !steps[k].Inject?
    ensures sys'.injected == sys.injected
    decreases |steps|
  {
    if steps != [] {
      if steps[0].Commit? {
        InjectedAtCommit(sys, steps[0].s, sys.nodes[steps[0].s].proposal.value, p);
      }
      InjectedKept(Next(sys, steps[0], p), steps[1..], sys', p);
    }
  }

  lemma {:induction false} InjectedAtCommit(sys: System, s: Shard, body: seq<Tx>, p: Placement)
    requires s < |sys.nodes|
    ensures CommitBody(sys, s, body, p).injected == sys.injected
  {
    if body != [] {
      InjectedAtCommit(sys, s, body[..|body| - 1], p);
    }
  }

  /** Whenever an uncovered transfer of a positive value has been relayed to an existing shard, the run can
      go on, without any new transaction, to a state where value has been created. */
  lemma UncoveredRelaySurfaces(n: nat, steps: seq<Step>, sys: System, A: set<Addr>, p: Placement, i: nat)
      returns (more: seq<Step>, sys': System)
    requires Reaches(Init(n), steps, sys, p) && Covers(A, steps) && InjectedNonNegative(sys)
    requires i < |sys.log| && Crosses(sys.log[i], p) && !sys.log[i].paid && sys.log[i].tx.value > 0
    requires p.Of(sys.log[i].tx.recipient) < n
    ensures Reaches(sys, more, sys', p) && (forall k :: 0 <= k < |more| ==> !more[k].Inject?)
    ensures SumBal(A, sys'.nodes, p) + Outstanding(sys'.log, Credited(sys'.log), p) > |A| * INIT_BALANCE
  {
    var e := sys.log[i];
    RelayAccounting(n, steps, sys, A, p);
    RunSends(Init(n), steps, sys, p);
    assert Legit(sys.nodes, sys.injected, e.shard, e.tx, p);
    more, sys' := DeliverAndCommit(sys, ParcelOf(e.tx, p), p);
    InjectedKept(sys, more, sys', p);
    RunThen(Init(n), steps, sys, more, sys', p);
    RunSends(sys, more, sys', p);
    assert Covers(A, steps + more);
    RelayAccounting(n, steps + more, sys', A, p);
    CreditedThere(sys, sys', p, i);
    LogNonNegative(sys', p);
    RelayConservation(n, steps + more, sys', A, p);
  }

  lemma CreditedThere(sys: System, sys': System, p: Placement, i: nat)
    requires LogExact(sys, p) && LogExact(sys', p) && sys.log <= sys'.log && sys'.injected == sys.injected
    requires i < |sys.log| && Crosses(sys.log[i], p) && !sys.log[i].paid && sys.log[i].tx.value > 0
    requires p.Of(sys.log[i].tx.recipient) < |sys'.nodes|
    requires sys.log[i].tx.hash in sys'.nodes[p.Of(sys.log[i].tx.recipient)].executed
    ensures !EveryCreditPaid(sys'.log, p)
  {
    var e, d := sys.log[i], p.Of(sys.log[i].tx.recipient);
    assert Legit(sys.nodes, sys.injected, e.shard, e.tx, p);
    assert Logged(sys'.log, d, e.tx.hash);
    var j :| 0 <= j < |sys'.log| && sys'.log[j].shard == d && sys'.log[j].tx.hash == e.tx.hash;
    assert Legit(sys'.nodes, sys'.injected, d, sys'.log[j].tx, p);
    assert FirstStage(sys'.log[j].tx) == FirstStage(e.tx);
    assert sys'.log[j].tx.sender == e.tx.sender;
    assert sys'.log[i] == e && SecondStageOf(sys'.log[j], sys'.log[i]);
  }

  lemma LogNonNegative(sys: System, p: Placement)
    requires EntriesLegit(sys, p) && InjectedNonNegative(sys)
    ensures NonNegative(sys.log)
  {
    forall i | 0 <= i < |sys.log|
      ensures sys.log[i].tx.value >= 0
    {
      assert Legit(sys.nodes, sys.injected, sys.log[i].shard, sys.log[i].tx, p);
    }
  }

  /** A shard whose queue holds one fresh transaction proposes it and commits it. */
  lemma CommitAlone(sys: System, s: Shard, tx: Tx, p: Placement) returns (sys': System)
    requires s < |sys.nodes| && sys.nodes[s].queue == [tx] && sys.nodes[s].proposal.None?
    requires tx.hash != [] && tx.hash !in sys.nodes[s].executed
    ensures Reaches(sys, [Propose(s, 1), Commit(s)], sys', p)
    ensures var e := Entry(s, tx, !Rejected(sys.nodes[s].accounts, tx, s, p));
            && sys'.log == sys.log + [e] && sys'.injected == sys.injected
            && sys'.sent == sys.sent + (if Crosses(e, p) then {ParcelOf(tx, p)} else {})
            && |sys'.nodes| == |sys.nodes|
            && forall t :: 0 <= t < |sys.nodes| && t != s ==> sys'.nodes[t] == sys.nodes[t]
  {
    var executed := sys.nodes[s].executed;
    assert [tx][..1] == [tx] && [tx][1..] == [];
    assert Fresh([tx], executed) == [tx] by {
      var none: seq<Tx> := [];
      assert [tx][..|[tx]| - 1] == none && HashSet(none) == {} && Fresh(none, executed) == none;
    }
    var mid := Next(sys, Propose(s, 1), p);
    assert mid.nodes[s].proposal == Some([tx]);
    sys' := Next(mid, Commit(s), p);
    OneTxBody(mid, s, tx, p);
    TwoSteps(sys, Propose(s, 1), Commit(s), p);
  }

  lemma OneTxBody(sys: System, s: Shard, tx: Tx, p: Placement)
    requires s < |sys.nodes|
    ensures CommitBody(sys, s, [tx], p) == CommitTx(sys, s, 0, tx, p)
  {
    assert [tx][..|[tx]| - 1] == [];
  }

  /** Account a lives on shard 0 and b on shard 1, and a sends b more than it has. */
  function WitnessPlacement(): Placement {
    Placement(map["a" := 0, "b" := 1], _ => 0)
  }

  function WitnessTx(): Tx {
    Tx([1], "a", "b", INIT_BALANCE + 1, false, false)
  }

  function FirstSteps(tx: Tx): seq<Step> {
    [Inject(0, tx)] + [Propose(0, 1), Commit(0)]
  }

  lemma FirstStageRun() returns (sys: System)
    ensures Reaches(Init(2), FirstSteps(WitnessTx()), sys, WitnessPlacement())
    ensures sys.log == [Entry(0, WitnessTx(), false)] && ParcelOf(WitnessTx(), WitnessPlacement()) in sys.sent
    ensures |sys.nodes| == 2 && sys.nodes[1] == Node(map[], {}, [], None)
  {
    var tx, p := WitnessTx(), WitnessPlacement();
    var s1 := Next(Init(2), Inject(0, tx), p);
    assert s1.nodes[0].queue == [tx];
    sys := CommitAlone(s1, 0, tx, p);
    StepThen(Init(2), Inject(0, tx), [Propose(0, 1), Commit(0)], sys, p);
  }

  function BothSteps(): seq<Step> {
    FirstSteps(WitnessTx()) + SecondSteps()
  }

  lemma WitnessCovered()
    ensures Covers({"a", "b"}, BothSteps())
  {
  }

  /** Committing the transfer at shard 0, and delivering and committing its relay at shard 1. */
  lemma BothStages() returns (sys: System, f: Entry)
    ensures Reaches(Init(2), BothSteps(), sys, WitnessPlacement())
    ensures sys.log == [Entry(0, WitnessTx(), false), f] && f.tx == WitnessTx().(relayed := true)
  {
    var mid := FirstStageRun();
    sys, f := SecondStageRun(mid);
    RunThen(Init(2), FirstSteps(WitnessTx()), mid, SecondSteps(), sys, WitnessPlacement());
  }

  function SecondSteps(): seq<Step> {
    [Deliver(ParcelOf(WitnessTx(), WitnessPlacement()))] + [Propose(1, 1), Commit(1)]
  }

  lemma SecondStageRun(mid: System) returns (sys: System, f: Entry)
    requires |mid.nodes| == 2 && mid.nodes[1] == Node(map[], {}, [], None)
    requires ParcelOf(WitnessTx(), WitnessPlacement()) in mid.sent
    ensures Reaches(mid, SecondSteps(), sys, WitnessPlacement())
    ensures sys.log == mid.log + [f] && f.tx == WitnessTx().(relayed := true)
  {
    var p := WitnessPlacement();
    var q := ParcelOf(WitnessTx(), p);
    var next := Next(mid, Deliver(q), p);
    assert next.nodes[1].queue == [q.tx];
    sys := CommitAlone(next, 1, q.tx, p);
    StepThen(mid, Deliver(q), [Propose(1, 1), Commit(1)], sys, p);
    f := sys.log[|mid.log|];
  }

  /** A concrete run that creates value: a transfer above the sender's balance is rejected by the first
      stage, relayed all the same, and credited by the second. */
  lemma UncoveredRelayCreatesValue()
    ensures exists steps, sys, p ::
              && Reaches(Init(2), steps, sys, p) && Covers({"a", "b"}, steps)
              && SumBal({"a", "b"}, sys.nodes, p) == 3 * INIT_BALANCE + 1
              && Outstanding(sys.log, Credited(sys.log), p) == 0
  {
    var tx, p := WitnessTx(), WitnessPlacement();
    var sys, f := BothStages();
    WitnessCovered();
    RelayAccounting(2, BothSteps(), sys, {"a", "b"}, p);
    TwoEntries(tx, f, p);
    assert |{"a", "b"}| == 2;
  }

  lemma TwoEntries(tx: Tx, f: Entry, p: Placement)
    requires !tx.relayed && p.Of(tx.recipient) != 0 && f.tx == tx.(relayed := true)
    ensures var log := [Entry(0, tx, false), f];
            Minted(log, Credited(log), p) == tx.value && Outstanding(log, Credited(log), p) == 0
  {
    var e := Entry(0, tx, false);
    var log := [e, f];
    assert log[..1] == [e] && [e][..0] == [];
    assert Credited([e]) == {};
    assert Credited(log) == {tx.hash};
    assert Minted([e], Credited(log), p) == tx.value;
    assert Outstanding([e], Credited(log), p) == 0;
  }
}
