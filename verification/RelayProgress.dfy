/** Nothing a shard has been given is lost: it stays queued, proposed or executed, and can always be executed. */
module RelayProgress {
  import opened Common
  import opened Ledger
  import opened Relay

  /** The hash is waiting at the shard, about to be committed, or on its chain. */
  predicate Held(node: Node, h: Bytes) {
    || h in HashSet(node.queue)
    || (node.proposal.Some? && h in HashSet(node.proposal.value))
    || h in node.executed
  }

  lemma HashSetSplits(txs: seq<Tx>, k: nat)
    requires k <= |txs|
    ensures HashSet(txs) == HashSet(txs[..k]) + HashSet(txs[k..])
  {
    HashSetAppend(txs[..k], txs[k..]);
    assert txs[..k] + txs[k..] == txs;
  }

  lemma {:induction false} WithoutHashes(txs: seq<Tx>, hs: set<Bytes>)
    ensures HashSet(txs) - hs <= HashSet(Without(txs, hs))
  {
    forall h | h in HashSet(txs) - hs
      ensures h in HashSet(Without(txs, hs))
    {
      var i :| 0 <= i < |txs| && txs[i].hash == h;
      WithoutMembers(txs, hs, txs[i]);
    }
  }

  lemma ProposeHolds(node: Node, max: nat, h: Bytes)
    requires h != [] && node.proposal.None? && Held(node, h)
    ensures var k := if |node.queue| < max then |node.queue| else max;
            Held(node.(queue := node.queue[k..], proposal := Some(Fresh(node.queue[..k], node.executed))), h)
  {
    var k := if |node.queue| < max then |node.queue| else max;
    HashSetSplits(node.queue, k);
    FreshKeepsAll(node.queue[..k], node.executed);
  }

  lemma EnqueueHolds(node: Node, tx: Tx, h: Bytes)
    ensures Held(node, h) || tx.hash == h ==> Held(node.(queue := node.queue + [tx]), h)
  {
    HashSetAppend(node.queue, [tx]);
  }

  lemma {:induction false} CommitLeavesOthers(sys: System, s: Shard, body: seq<Tx>, p: Placement)
    requires s < |sys.nodes|
    ensures forall t :: 0 <= t < |sys.nodes| && t != s ==> CommitBody(sys, s, body, p).nodes[t] == sys.nodes[t]
  {
    if body != [] {
      CommitLeavesOthers(sys, s, body[..|body| - 1], p);
    }
  }

  lemma CommitHolds(sys: System, s: Shard, p: Placement, t: Shard, h: Bytes)
    requires Enabled(sys, Commit(s), p) && t < |sys.nodes| && Held(sys.nodes[t], h)
    ensures Held(Next(sys, Commit(s), p).nodes[t], h)
  {
    var body := sys.nodes[s].proposal.value;
    CommitIsExecution(sys, s, body, p);
    CommitLeavesOthers(sys, s, body, p);
    WithoutHashes(sys.nodes[s].queue, HashSet(body));
  }

  /** Only giving up a proposal can lose anything, and only at its own shard. */
  lemma StepHolds(sys: System, step: Step, p: Placement, t: Shard, h: Bytes)
    requires Enabled(sys, step, p) && t < |sys.nodes| && Held(sys.nodes[t], h) && h != [] && step != Abandon(t)
    ensures |Next(sys, step, p).nodes| == |sys.nodes| && Held(Next(sys, step, p).nodes[t], h)
  {
    match step
    case Inject(s, tx) => EnqueueHolds(sys.nodes[s], tx, h);
    case Propose(s, max) =>
      if s == t {
        ProposeHolds(sys.nodes[s], max, h);
      }
    case Abandon(s) =>
    case Commit(s) => CommitHolds(sys, s, p, t, h);
    case Deliver(q) => EnqueueHolds(sys.nodes[q.dest], q.tx, h);
  }

  /** Giving up a proposal gives up nothing else. */
  lemma AbandonKeepsTheRest(sys: System, s: Shard, p: Placement)
    requires Enabled(sys, Abandon(s), p)
    ensures var node := Next(sys, Abandon(s), p).nodes[s];
            && node.queue == sys.nodes[s].queue && node.executed == sys.nodes[s].executed
            && node.accounts == sys.nodes[s].accounts && node.proposal.None?
  {
  }

  /** What a step hands to a shard: an injected transaction or a delivered parcel. */
  function Given(step: Step): Option<Parcel> {
    match step
    case Inject(s, tx) => Some(Parcel(s, tx))
    case Deliver(q) => Some(q)
    case _ => None
  }

  lemma GivenIsHeld(sys: System, step: Step, p: Placement)
    requires Enabled(sys, step, p) && Given(step).Some?
    ensures var q := Given(step).value;
            q.dest < |Next(sys, step, p).nodes| && Held(Next(sys, step, p).nodes[q.dest], q.tx.hash)
  {
    var q := Given(step).value;
    EnqueueHolds(sys.nodes[q.dest], q.tx, q.tx.hash);
  }

  lemma {:induction false} HeldStays(sys: System, steps: seq<Step>, sys': System, p: Placement, t: Shard, h: Bytes)
    requires Reaches(sys, steps, sys', p) && t < |sys.nodes| && Held(sys.nodes[t], h) && h != []
    requires Abandon(t) !in steps
    ensures t < |sys'.nodes| && Held(sys'.nodes[t], h)
    decreases |steps|
  {
    if steps != [] {
      assert steps[0] in steps;
      StepHolds(sys, steps[0], p, t, h);
      assert forall x :: x in steps[1..] ==> x in steps;
      HeldStays(Next(sys, steps[0], p), steps[1..], sys', p, t, h);
    }
  }

  /** In every run, whatever a shard is given by injection or delivery stays with it, unless the shard gives
      up a proposal. */
  lemma {:induction false} NothingIsLost(sys: System, steps: seq<Step>, sys': System, p: Placement, k: nat)
    requires Reaches(sys, steps, sys', p) && k < |steps| && Given(steps[k]).Some? && Given(steps[k]).value.tx.hash != []
    requires Abandon(Given(steps[k]).value.dest) !in steps
    ensures var q := Given(steps[k]).value; q.dest < |sys'.nodes| && Held(sys'.nodes[q.dest], q.tx.hash)
    decreases |steps|
  {
    var q := Given(steps[k]).value;
    var next := Next(sys, steps[0], p);
    assert forall x :: x in steps[1..] ==> x in steps;
    if k == 0 {
      GivenIsHeld(sys, steps[0], p);
      HeldStays(next, steps[1..], sys', p, q.dest, q.tx.hash);
    } else {
      NothingIsLost(next, steps[1..], sys', p, k - 1);
    }
  }

  /** And from every state the run can go on, with nothing new and nothing given up, until it is executed. */
  lemma HeldCanBeExecuted(sys: System, p: Placement, t: Shard, h: Bytes) returns (more: seq<Step>, sys': System)
    requires t < |sys.nodes| && Held(sys.nodes[t], h) && h != []
    ensures Reaches(sys, more, sys', p) && t < |sys'.nodes| && h in sys'.nodes[t].executed
    ensures forall i :: 0 <= i < |more| ==> Given(more[i]).None? && more[i] != Abandon(t)
  {
    if sys.nodes[t].proposal.None? {
      sys' := CommitQueue(sys, t, p);
      more := [Propose(t, |sys.nodes[t].queue|), Commit(t)];
    } else {
      var mid := Next(sys, Commit(t), p);
      CommitHolds(sys, t, p, t, h);
      sys' := CommitQueue(mid, t, p);
      var rest := [Propose(t, |mid.nodes[t].queue|), Commit(t)];
      StepThen(sys, Commit(t), rest, sys', p);
      more := [Commit(t)] + rest;
    }
  }
}
