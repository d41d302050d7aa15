/** Agreement of whole chains under an honest leader, with catch-up allowed.

    In one view, every proposal an honest replica is handed is one the leader made at that height, and
    catch-up responses come from the leader, which answers with its own requests. */
module PbftLeader {
  import opened Common
  import opened PbftReplica
  import opened Pbft

  /** The request at every height of the response is the one the leader proposed there. */
  ghost predicate FromLeader(sys: System, leader: Node, resp: OldRequests) {
    forall k :: 0 <= k < |resp.reqs| && resp.reqs[k].Some? ==>
      Proposed(sys, leader, resp.start + k, resp.reqs[k].value)
  }

  ghost predicate Proposed(sys: System, leader: Node, h: nat, req: Request) {
    Slot(leader, h) in sys.handed && sys.handed[Slot(leader, h)] == Of(req)
  }

  /** The leader proposes blocks of the next height; replicas are handed its proposals and its answers. */
  ghost predicate Led(sys: System, leader: Node, e: Event)
    requires e.i in sys.reps
  {
    match e
    case Lead(i, req) => i == leader && req.block.number == sys.reps[i].seqId
    case GetPrePrepare(_, m) => Proposed(sys, leader, m.seqId, m.req)
    case GetOldRequests(i, resp) => i != leader && FromLeader(sys, leader, resp)
    case _ => true
  }

  ghost predicate LedRun(cfg: Config, sys: System, faulty: set<Node>, leader: Node, es: seq<Event>, sys': System)
    decreases |es|
  {
    if es == [] then sys' == sys
    else
      && Enabled(cfg, sys, faulty, es[0]) && Led(sys, leader, es[0])
      && LedRun(cfg, Next(cfg, sys, es[0]), faulty, leader, es[1..], sys')
  }

  // ----- What every such run keeps -----

  /** Whatever was handed out is the leader's proposal, which carries its height. */
  ghost predicate HandedByLeader(sys: System, leader: Node) {
    && (forall slot :: slot in sys.handed ==>
          Slot(leader, slot.seqId) in sys.handed && sys.handed[slot] == sys.handed[Slot(leader, slot.seqId)])
    && (forall h :: Slot(leader, h) in sys.handed ==>
          sys.handed[Slot(leader, h)].Of? && sys.handed[Slot(leader, h)].req.block.number == h)
  }

  /** Above its persisted head, a chain holds the leader's proposals. */
  ghost predicate ChainLed(sys: System, leader: Node, start: seq<Block>, i: Node)
    requires i in sys.reps
  {
    var chain := sys.reps[i].chain;
    start <= chain && forall h :: |start| <= h < |chain| ==> HeldAt(sys, leader, h, chain[h])
  }

  ghost predicate HeldAt(sys: System, leader: Node, h: nat, b: Block) {
    Slot(leader, h) in sys.handed && sys.handed[Slot(leader, h)].Of? && sys.handed[Slot(leader, h)].req.block == b
  }

  ghost predicate ChainsLed(sys: System, leader: Node, starts: Node -> seq<Block>) {
    forall i :: i in sys.reps ==> ChainLed(sys, leader, starts(i), i)
  }

  ghost predicate HandedGrows(sys: System, sys': System) {
    forall slot :: slot in sys.handed ==> slot in sys'.handed && sys'.handed[slot] == sys.handed[slot]
  }

  lemma HandedKeeps(cfg: Config, sys: System, faulty: set<Node>, leader: Node, e: Event)
    requires Enabled(cfg, sys, faulty, e) && Led(sys, leader, e) && HandedByLeader(sys, leader)
    ensures HandedByLeader(Next(cfg, sys, e), leader) && HandedGrows(sys, Next(cfg, sys, e))
  {
  }

  /** An applied request is the leader's proposal at its height. */
  lemma AppliedIsProposed(cfg: Config, sys: System, faulty: set<Node>, leader: Node, slot: Slot)
    requires Inv(cfg, sys, faulty) && |faulty| <= cfg.f && HandedByLeader(sys, leader) && slot in sys.applied
    ensures HeldAt(sys, leader, slot.seqId, sys.applied[slot].block)
  {
    var req := sys.applied[slot];
    var x := PreparedByQuorum(cfg, sys, faulty, slot);
    assert AppliedOk(cfg, sys, slot) && ReplicaOk(cfg, sys, faulty, x);
    var v := HonestVote(cfg, faulty, sys.reps[x].prepares, sys.prepared, Of(req));
    assert PrepareOk(sys, v);
  }

  /** Blocks installed from the leader's answer are the leader's proposals at their heights. */
  lemma InstalledIsProposed(cfg: Config, sys: System, leader: Node, chain: seq<Block>, resp: OldRequests, h: nat)
    requires HandedByLeader(sys, leader) && FromLeader(sys, leader, resp)
    requires |chain| <= h < |InstallPrefix(cfg, chain, resp.reqs)|
    ensures HeldAt(sys, leader, h, InstallPrefix(cfg, chain, resp.reqs)[h])
  {
    var c, k := InstallPrefix(cfg, chain, resp.reqs), h - |chain|;
    InstallAll(cfg, chain, resp.reqs);
    assert Fits(cfg, c[..|chain| + k], resp.reqs[k]) && c[|chain| + k] == resp.reqs[k].value.block;
    assert Proposed(sys, leader, resp.start + k, resp.reqs[k].value);
    assert resp.reqs[k].value.block.number == h;
  }

  lemma {:induction false} ChainKeeps(sys: System, sys': System, leader: Node, start: seq<Block>, i: Node)
    requires i in sys.reps && i in sys'.reps && ChainLed(sys, leader, start, i) && HandedGrows(sys, sys')
    requires sys.reps[i].chain <= sys'.reps[i].chain
    requires forall h :: |sys.reps[i].chain| <= h < |sys'.reps[i].chain| ==>
               HeldAt(sys', leader, h, sys'.reps[i].chain[h])
    ensures ChainLed(sys', leader, start, i)
  {
    var chain, chain' := sys.reps[i].chain, sys'.reps[i].chain;
    forall h | |start| <= h < |chain'|
      ensures HeldAt(sys', leader, h, chain'[h])
    {
      if h < |chain| {
        assert HeldAt(sys, leader, h, chain[h]);
      }
    }
  }

  lemma CommitChains(cfg: Config, sys: System, faulty: set<Node>, leader: Node, e: Event)
    requires Inv(cfg, sys, faulty) && |faulty| <= cfg.f && HandedByLeader(sys, leader)
    requires Enabled(cfg, sys, faulty, e) && Led(sys, leader, e) && !e.GetOldRequests?
    ensures var (sys', chain) := (Next(cfg, sys, e), sys.reps[e.i].chain);
            && chain <= sys'.reps[e.i].chain
            && forall h :: |chain| <= h < |sys'.reps[e.i].chain| ==> HeldAt(sys', leader, h, sys'.reps[e.i].chain[h])
  {
    AppliedExtends(cfg, sys, e);
    StepKeeps(cfg, sys, faulty, e);
    HandedKeeps(cfg, sys, faulty, leader, e);
    NewBlockIsProposed(cfg, Next(cfg, sys, e), faulty, leader, e.i, sys.reps[e.i].chain);
  }

  /** The chain grew by at most one block, the one recorded as applied. */
  ghost predicate Extended(sys: System, i: Node, chain: seq<Block>)
    requires i in sys.reps
  {
    var (chain', slot) := (sys.reps[i].chain, Slot(i, |chain|));
    && chain <= chain' && |chain'| <= |chain| + 1
    && (|chain'| > |chain| ==> slot in sys.applied && sys.applied[slot].block == chain'[|chain|])
  }

  lemma NewBlockIsProposed(cfg: Config, sys: System, faulty: set<Node>, leader: Node, i: Node, chain: seq<Block>)
    requires Inv(cfg, sys, faulty) && |faulty| <= cfg.f && HandedByLeader(sys, leader)
    requires i in sys.reps && Extended(sys, i, chain)
    ensures forall h :: |chain| <= h < |sys.reps[i].chain| ==> HeldAt(sys, leader, h, sys.reps[i].chain[h])
  {
    if |sys.reps[i].chain| > |chain| {
      AppliedIsProposed(cfg, sys, faulty, leader, Slot(i, |chain|));
    }
  }

  lemma AppliedExtends(cfg: Config, sys: System, e: Event)
    requires e.i in sys.reps && !e.GetOldRequests?
    ensures e.i in Next(cfg, sys, e).reps && Extended(Next(cfg, sys, e), e.i, sys.reps[e.i].chain)
  {
    StepChains(cfg, sys, e);
  }

  lemma CatchUpChains(cfg: Config, sys: System, leader: Node, i: Node, resp: OldRequests)
    requires i in sys.reps && HandedByLeader(sys, leader) && FromLeader(sys, leader, resp)
    ensures var (sys', chain) := (Next(cfg, sys, GetOldRequests(i, resp)), sys.reps[i].chain);
            && chain <= sys'.reps[i].chain
            && forall h :: |chain| <= h < |sys'.reps[i].chain| ==> HeldAt(sys', leader, h, sys'.reps[i].chain[h])
  {
    var sys', r := Next(cfg, sys, GetOldRequests(i, resp)), sys.reps[i];
    var c := InstallPrefix(cfg, r.chain, resp.reqs);
    InstallGrows(cfg, r.chain, resp.reqs);
    assert sys'.reps[i].chain == c || sys'.reps[i].chain == r.chain;
    forall h | |r.chain| <= h < |sys'.reps[i].chain|
      ensures HeldAt(sys', leader, h, sys'.reps[i].chain[h])
    {
      InstalledIsProposed(cfg, sys, leader, r.chain, resp, h);
    }
  }

  lemma LedStepKeeps(cfg: Config, sys: System, faulty: set<Node>, leader: Node, starts: Node -> seq<Block>, e: Event)
    requires Inv(cfg, sys, faulty) && |faulty| <= cfg.f
    requires HandedByLeader(sys, leader) && ChainsLed(sys, leader, starts)
    requires Enabled(cfg, sys, faulty, e) && Led(sys, leader, e)
    ensures HandedByLeader(Next(cfg, sys, e), leader) && ChainsLed(Next(cfg, sys, e), leader, starts)
  {
    var sys' := Next(cfg, sys, e);
    HandedKeeps(cfg, sys, faulty, leader, e);
    if e.GetOldRequests? {
      CatchUpChains(cfg, sys, leader, e.i, e.resp);
    } else {
      CommitChains(cfg, sys, faulty, leader, e);
    }
    forall i | i in sys'.reps
      ensures ChainLed(sys', leader, starts(i), i)
    {
      assert i != e.i ==> sys'.reps[i] == sys.reps[i];
      ChainKeeps(sys, sys', leader, starts(i), i);
    }
  }

  lemma {:induction false} LedRunKeeps(cfg: Config, sys: System, faulty: set<Node>, leader: Node,
                                       starts: Node -> seq<Block>, es: seq<Event>, sys': System)
    requires Inv(cfg, sys, faulty) && |faulty| <= cfg.f
    requires HandedByLeader(sys, leader) && ChainsLed(sys, leader, starts)
    requires LedRun(cfg, sys, faulty, leader, es, sys')
    ensures HandedByLeader(sys', leader) && ChainsLed(sys', leader, starts)
    decreases |es|
  {
    if es != [] {
      StepKeeps(cfg, sys, faulty, es[0]);
      LedStepKeeps(cfg, sys, faulty, leader, starts, es[0]);
      LedRunKeeps(cfg, Next(cfg, sys, es[0]), faulty, leader, starts, es[1..], sys');
    }
  }

  // ----- The leader's answers -----

  /** The leader knows, per height, what it was handed there. */
  ghost predicate LeaderRemembers(sys: System, leader: Node) {
    leader in sys.reps ==>
      forall h :: h in sys.reps[leader].height2Digest ==>
        Slot(leader, h) in sys.handed && sys.handed[Slot(leader, h)] == sys.reps[leader].height2Digest[h]
  }

  lemma RememberingKeeps(cfg: Config, sys: System, faulty: set<Node>, leader: Node, e: Event)
    requires Enabled(cfg, sys, faulty, e) && Led(sys, leader, e) && LeaderRemembers(sys, leader)
    ensures LeaderRemembers(Next(cfg, sys, e), leader)
  {
    var sys' := Next(cfg, sys, e);
    if leader in sys.reps {
      HandedStays(cfg, sys, faulty, e);
      if e.i == leader {
        NotesWhatIsHanded(cfg, sys, e);
      }
      forall h | h in sys'.reps[leader].height2Digest
        ensures Slot(leader, h) in sys'.handed && sys'.handed[Slot(leader, h)] == sys'.reps[leader].height2Digest[h]
      {
        if h in sys.reps[leader].height2Digest {
          assert Slot(leader, h) in sys.handed;
        }
      }
    }
  }

  lemma HandedStays(cfg: Config, sys: System, faulty: set<Node>, e: Event)
    requires Enabled(cfg, sys, faulty, e)
    ensures HandedGrows(sys, Next(cfg, sys, e))
  {
  }

  /** A replica notes a digest for a height only when it is handed it there. */
  lemma NotesWhatIsHanded(cfg: Config, sys: System, e: Event)
    requires e.i in sys.reps && !e.GetOldRequests?
    ensures var (sys', known) := (Next(cfg, sys, e), sys.reps[e.i].height2Digest);
            forall h :: h in sys'.reps[e.i].height2Digest ==>
              || (h in known && sys'.reps[e.i].height2Digest[h] == known[h])
              || (Slot(e.i, h) in sys'.handed && sys'.handed[Slot(e.i, h)] == sys'.reps[e.i].height2Digest[h])
  {
  }

  lemma {:induction false} LedRunRemembers(cfg: Config, sys: System, faulty: set<Node>, leader: Node,
                                           es: seq<Event>, sys': System)
    requires LeaderRemembers(sys, leader) && LedRun(cfg, sys, faulty, leader, es, sys')
    ensures LeaderRemembers(sys', leader)
    decreases |es|
  {
    if es != [] {
      RememberingKeeps(cfg, sys, faulty, leader, es[0]);
      LedRunRemembers(cfg, Next(cfg, sys, es[0]), faulty, leader, es[1..], sys');
    }
  }

  /** An answer lists known requests by height. */
  ghost predicate Answers(r: Replica, resp: OldRequests) {
    forall k :: 0 <= k < |resp.reqs| ==>
      var h := resp.start + k;
      h in r.height2Digest && r.height2Digest[h] in r.pool && resp.reqs[k] == Some(r.pool[r.height2Digest[h]])
  }

  lemma {:induction false} LedRunReaches(cfg: Config, sys: System, faulty: set<Node>, leader: Node,
                                         es: seq<Event>, sys': System)
    requires LedRun(cfg, sys, faulty, leader, es, sys')
    ensures Reaches(cfg, sys, faulty, es, sys')
    decreases |es|
  {
    if es != [] {
      LedRunReaches(cfg, Next(cfg, sys, es[0]), faulty, leader, es[1..], sys');
    }
  }

  /** Whatever an honest leader answers at any point of such a run is a response the run allows. */
  lemma LeaderAnswers(cfg: Config, faulty: set<Node>, leader: Node, starts: Node -> seq<Block>, es: seq<Event>,
                      sys: System, resp: OldRequests)
    requires Started(starts) && LedRun(cfg, Init(cfg, faulty, starts), faulty, leader, es, sys)
    requires leader in sys.reps && Answers(sys.reps[leader], resp)
    ensures FromLeader(sys, leader, resp)
  {
    InitOk(cfg, faulty, starts);
    LedRunReaches(cfg, Init(cfg, faulty, starts), faulty, leader, es, sys);
    RunKeeps(cfg, Init(cfg, faulty, starts), faulty, es, sys);
    LedRunRemembers(cfg, Init(cfg, faulty, starts), faulty, leader, es, sys);
    assert ReplicaOk(cfg, sys, faulty, leader);
    KnownIsProposed(sys, leader, resp);
  }

  lemma KnownIsProposed(sys: System, leader: Node, resp: OldRequests)
    requires leader in sys.reps && LeaderRemembers(sys, leader) && Answers(sys.reps[leader], resp)
    requires forall d :: d in sys.reps[leader].pool ==> d == Of(sys.reps[leader].pool[d])
    ensures FromLeader(sys, leader, resp)
  {
  }

  // ----- The theorem -----

  /** Under an honest leader, over every run with catch-up, from any persisted chains and with at most f faulty
      members: two honest chains agree at every height above both persisted heads. */
  lemma LedChainsAgree(cfg: Config, faulty: set<Node>, leader: Node, starts: Node -> seq<Block>, es: seq<Event>,
                       sys: System, i: Node, j: Node, h: nat)
    requires Started(starts) && |faulty| <= cfg.f && LedRun(cfg, Init(cfg, faulty, starts), faulty, leader, es, sys)
    requires i in sys.reps && j in sys.reps && h < |sys.reps[i].chain| && h < |sys.reps[j].chain|
    ensures starts(i) <= sys.reps[i].chain
    ensures |starts(i)| <= h && |starts(j)| <= h ==> sys.reps[i].chain[h] == sys.reps[j].chain[h]
    ensures h < |starts(i)| && h < |starts(j)| && starts(i)[h] == starts(j)[h] ==>
              sys.reps[i].chain[h] == sys.reps[j].chain[h]
  {
    InitOk(cfg, faulty, starts);
    LedRunKeeps(cfg, Init(cfg, faulty, starts), faulty, leader, starts, es, sys);
    assert ChainLed(sys, leader, starts(i), i) && ChainLed(sys, leader, starts(j), j);
    if |starts(i)| <= h && |starts(j)| <= h {
      assert HeldAt(sys, leader, h, sys.reps[i].chain[h]) && HeldAt(sys, leader, h, sys.reps[j].chain[h]);
    }
  }
}
