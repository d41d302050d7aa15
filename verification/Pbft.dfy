/** Agreement between the honest replicas of a group, within one view.

    Faulty members may send any vote under their own name and any proposal to anyone. Honest replicas are
    handed at most one proposal per sequence number; catch-up responses may come from anyone, as long as
    their first block carries the announced height. */
module Pbft {
  import opened Common
  import opened PbftReplica

  type Node = nat
  datatype Slot = Slot(node: Node, seqId: nat)

  /** Replicas of the honest members, every vote they sent, every proposal they were handed, and every
      block they appended on the strength of commit votes. */
  datatype System = System(
    reps: map<Node, Replica>,
    prepared: set<Vote>,
    committed: set<Vote>,
    handed: map<Slot, Digest>,
    applied: map<Slot, Request>)

  datatype Event =
    | Lead(i: Node, req: Request)
    | GetPrePrepare(i: Node, m: PrePrepare)
    | GetPrepare(i: Node, v: Vote)
    | GetCommit(i: Node, v: Vote)
    | GetOldRequests(i: Node, resp: OldRequests)

  ghost predicate FitsSlot(handed: map<Slot, Digest>, slot: Slot, d: Digest) {
    slot in handed ==> handed[slot] == d
  }

  ghost predicate Enabled(cfg: Config, sys: System, faulty: set<Node>, e: Event) {
    && e.i in sys.reps
    && var r := sys.reps[e.i];
       match e
       case Lead(i, req) => r.stage == 1 && FitsSlot(sys.handed, Slot(i, r.seqId), Of(req))
       case GetPrePrepare(i, m) => !Waits(r, 1, m.seqId) && FitsSlot(sys.handed, Slot(i, m.seqId), Of(m.req))
       case GetPrepare(i, v) => !Waits(r, 2, v.seqId) && (v.sender in faulty || v in sys.prepared)
       case GetCommit(i, v) => !Waits(r, 3, v.seqId) && (v.sender in faulty || v in sys.committed)
       case GetOldRequests(i, resp) => StartsAsAnnounced(resp)
  }

  function Next(cfg: Config, sys: System, e: Event): System
    requires e.i in sys.reps
  {
    var r := sys.reps[e.i];
    match e
    case Lead(i, req) =>
      sys.(reps := sys.reps[i := Propose(r, req)], handed := sys.handed[Slot(i, r.seqId) := Of(req)])
    case GetPrePrepare(i, m) =>
      sys.(reps := sys.reps[i := OnPrePrepare(cfg, r, m)],
           handed := sys.handed[Slot(i, m.seqId) := Of(m.req)],
           prepared := sys.prepared + (if Prepares(cfg, r, m) then {Vote(i, m.digest, m.seqId)} else {}))
    case GetPrepare(i, v) =>
      sys.(reps := sys.reps[i := OnPrepare(cfg, r, v)],
           committed := sys.committed + (if Commits(cfg, r, v) then {Vote(i, v.digest, v.seqId)} else {}))
    case GetCommit(i, v) =>
      var out := CommitOutcome(cfg, r, v);
      sys.(reps := sys.reps[i := OnCommit(cfg, r, v)],
           applied := if out.Applied? then sys.applied[Slot(i, |r.chain|) := out.req] else sys.applied)
    case GetOldRequests(i, resp) =>
      var r' := OnOldRequests(cfg, r, resp);
      sys.(reps := sys.reps[i := r'],
           prepared := sys.prepared + (if Installs(cfg, r, resp) && PreparesNext(cfg, r')
                                       then {Vote(i, r'.height2Digest[r'.seqId], r'.seqId)} else {}))
  }

  /** The chain every honest member has persisted when it starts. */
  ghost predicate Started(starts: Node -> seq<Block>) {
    forall i :: Numbered(starts(i))
  }

  ghost function Init(cfg: Config, faulty: set<Node>, starts: Node -> seq<Block>): System
    requires Started(starts)
  {
    System(map i: Node | 0 <= i < cfg.n && i !in faulty :: NewReplica(starts(i)), {}, {}, map[], map[])
  }

  ghost predicate Reaches(cfg: Config, sys: System, faulty: set<Node>, es: seq<Event>, sys': System)
    decreases |es|
  {
    if es == [] then sys' == sys
    else Enabled(cfg, sys, faulty, es[0]) && Reaches(cfg, Next(cfg, sys, es[0]), faulty, es[1..], sys')
  }

  // ----- Quorums -----

  lemma QuorumsMeet(n: nat, f: nat, faulty: set<Node>, A: set<Node>, B: set<Node>) returns (x: Node)
    requires n == 3 * f + 1 && |faulty| <= f
    requires A <= Below(n) && B <= Below(n) && |A| >= 2 * f + 1 && |B| >= 2 * f + 1
    ensures x in A && x in B && x !in faulty
  {
    SubsetSize(A + B, Below(n));
    UnionSize(A, B);
    assert !(A * B <= faulty) by {
      if A * B <= faulty {
        SubsetSize(A * B, faulty);
      }
    }
    x :| x in A * B && x !in faulty;
  }

  ghost predicate IsQuorum(n: nat, f: nat, A: set<Node>) {
    A <= Below(n) && |A| >= 2 * f + 1
  }

  ghost predicate MeetHonestly(A: set<Node>, B: set<Node>, faulty: set<Node>) {
    exists x :: x in A && x in B && x !in faulty
  }

  /** With the fault bound (n - 1) / 3, every pair of quorums shares an honest member whatever f members
      are faulty, exactly when n is 3f + 1. */
  lemma QuorumsMeetExactly(n: nat, f: nat)
    requires n > 0 && f == (n - 1) / 3
    ensures (forall A, B, faulty: set<Node> ::
               IsQuorum(n, f, A) && IsQuorum(n, f, B) && |faulty| <= f ==> MeetHonestly(A, B, faulty))
            <==> n == 3 * f + 1
  {
    if n == 3 * f + 1 {
      forall A, B, faulty: set<Node> | IsQuorum(n, f, A) && IsQuorum(n, f, B) && |faulty| <= f
        ensures MeetHonestly(A, B, faulty)
      {
        var x := QuorumsMeet(n, f, faulty, A, B);
      }
    } else {
      var A, B := QuorumsMayMiss(n, f);
      assert IsQuorum(n, f, A) && IsQuorum(n, f, B) && |A * B| <= f;
      assert !MeetHonestly(A, B, A * B);
    }
  }

  lemma QuorumsMayMiss(n: nat, f: nat) returns (A: set<Node>, B: set<Node>)
    requires n > 3 * f + 1
    ensures A <= Below(n) && B <= Below(n) && |A| == |B| == 2 * f + 1 && |A * B| <= f
  {
    var q := 2 * f + 1;
    A, B := Below(q), Below(n) - Below(n - q);
    LastMembers(n, q);
    if n - q <= q {
      assert A + B == Below(n);
      UnionSize(A, B);
    } else {
      assert A * B == {};
    }
  }

  lemma LastMembers(n: nat, q: nat)
    requires q <= n
    ensures |Below(n) - Below(n - q)| == q
  {
    assert Below(n) == Below(n - q) + (Below(n) - Below(n - q));
  }

  lemma UnionSize(A: set<Node>, B: set<Node>)
    ensures |A + B| == |A| + |B| - |A * B|
  {
  }

  // ----- What every run keeps -----

  /** A vote counted at a replica came from a faulty member or was really sent. */
  ghost predicate Authentic(n: nat, faulty: set<Node>, votes: Votes, sent: set<Vote>) {
    forall d, x :: x in VotesFor(votes, d) ==> Backed(n, faulty, sent, x, d)
  }

  ghost predicate Backed(n: nat, faulty: set<Node>, sent: set<Vote>, x: Node, d: Digest) {
    x < n && (x in faulty || exists s :: Vote(x, d, s) in sent)
  }

  ghost predicate ReplicaOk(cfg: Config, sys: System, faulty: set<Node>, i: Node)
    requires i in sys.reps
  {
    var r := sys.reps[i];
    && Aligned(r)
    && (forall d :: d in r.pool ==> d == Of(r.pool[d]))
    && (forall s :: s in r.height2Digest && s >= r.seqId ==>
          Slot(i, s) in sys.handed && sys.handed[Slot(i, s)] == r.height2Digest[s])
    && Authentic(cfg.n, faulty, r.prepares, sys.prepared)
    && Authentic(cfg.n, faulty, r.commits, sys.committed)
  }

  /** An honest prepare vote is for the one proposal its sender was handed at that height. */
  ghost predicate PrepareOk(sys: System, v: Vote) {
    && v.sender in sys.reps && v.digest.Of? && v.digest.req.block.number == v.seqId
    && Slot(v.sender, v.seqId) in sys.handed && sys.handed[Slot(v.sender, v.seqId)] == v.digest
  }

  ghost predicate CommitOk(cfg: Config, sys: System, v: Vote) {
    v.sender in sys.reps && |VotesFor(sys.reps[v.sender].prepares, v.digest)| >= Quorum(cfg)
  }

  ghost predicate AppliedOk(cfg: Config, sys: System, slot: Slot)
    requires slot in sys.applied
  {
    var req := sys.applied[slot];
    && slot.node in sys.reps && req.block.number == slot.seqId
    && |VotesFor(sys.reps[slot.node].commits, Of(req))| >= Quorum(cfg)
  }

  ghost predicate Inv(cfg: Config, sys: System, faulty: set<Node>) {
    && (forall i: Node :: i in sys.reps <==> i < cfg.n && i !in faulty)
    && RepsOk(cfg, sys, faulty) && PreparedOk(sys) && CommittedOk(cfg, sys) && AllAppliedOk(cfg, sys)
  }

  ghost predicate RepsOk(cfg: Config, sys: System, faulty: set<Node>) {
    forall i :: i in sys.reps ==> ReplicaOk(cfg, sys, faulty, i)
  }

  ghost predicate PreparedOk(sys: System) {
    forall v :: v in sys.prepared ==> PrepareOk(sys, v)
  }

  ghost predicate CommittedOk(cfg: Config, sys: System) {
    forall v :: v in sys.committed ==> CommitOk(cfg, sys, v)
  }

  ghost predicate AllAppliedOk(cfg: Config, sys: System) {
    forall slot :: slot in sys.applied ==> AppliedOk(cfg, sys, slot)
  }

  /** Everything other replicas' invariants refer to only grows. */
  ghost predicate Grows(sys: System, sys': System, i: Node) {
    && sys'.reps.Keys == sys.reps.Keys && i in sys.reps
    && (forall j :: j in sys.reps && j != i ==> sys'.reps[j] == sys.reps[j])
    && sys.prepared <= sys'.prepared && sys.committed <= sys'.committed
    && (forall slot :: slot in sys.handed ==> slot in sys'.handed && sys'.handed[slot] == sys.handed[slot])
    && VotesGrow(sys.reps[i].prepares, sys'.reps[i].prepares) && VotesGrow(sys.reps[i].commits, sys'.reps[i].commits)
  }

  ghost predicate VotesGrow(m: Votes, m': Votes) {
    forall d :: VotesFor(m, d) <= VotesFor(m', d)
  }

  lemma AuthenticGrows(n: nat, faulty: set<Node>, votes: Votes, sent: set<Vote>, sent': set<Vote>)
    requires Authentic(n, faulty, votes, sent) && sent <= sent'
    ensures Authentic(n, faulty, votes, sent')
  {
    forall d, x | Backed(n, faulty, sent, x, d)
      ensures Backed(n, faulty, sent', x, d)
    {
      if s :| Vote(x, d, s) in sent {
        assert Vote(x, d, s) in sent';
      }
    }
  }

  lemma OthersKeep(cfg: Config, sys: System, sys': System, faulty: set<Node>, i: Node)
    requires RepsOk(cfg, sys, faulty) && Grows(sys, sys', i) && ReplicaOk(cfg, sys', faulty, i)
    ensures RepsOk(cfg, sys', faulty)
  {
    forall j | j in sys'.reps
      ensures ReplicaOk(cfg, sys', faulty, j)
    {
      if j != i {
        AuthenticGrows(cfg.n, faulty, sys.reps[j].prepares, sys.prepared, sys'.prepared);
        AuthenticGrows(cfg.n, faulty, sys.reps[j].commits, sys.committed, sys'.committed);
      }
    }
  }

  lemma VotesKeep(cfg: Config, sys: System, sys': System, i: Node, j: Node, d: Digest)
    requires Grows(sys, sys', i) && j in sys.reps
    ensures |VotesFor(sys.reps[j].prepares, d)| <= |VotesFor(sys'.reps[j].prepares, d)|
    ensures |VotesFor(sys.reps[j].commits, d)| <= |VotesFor(sys'.reps[j].commits, d)|
  {
    SubsetSize(VotesFor(sys.reps[j].prepares, d), VotesFor(sys'.reps[j].prepares, d));
    SubsetSize(VotesFor(sys.reps[j].commits, d), VotesFor(sys'.reps[j].commits, d));
  }

  lemma CommitsKeep(cfg: Config, sys: System, sys': System, i: Node)
    requires CommittedOk(cfg, sys) && Grows(sys, sys', i)
    requires forall v :: v in sys'.committed && v !in sys.committed ==> CommitOk(cfg, sys', v)
    ensures CommittedOk(cfg, sys')
  {
    forall v | v in sys.committed
      ensures CommitOk(cfg, sys', v)
    {
      assert CommitOk(cfg, sys, v);
      VotesKeep(cfg, sys, sys', i, v.sender, v.digest);
    }
  }

  lemma AppliedKeep(cfg: Config, sys: System, sys': System, i: Node)
    requires AllAppliedOk(cfg, sys) && Grows(sys, sys', i)
    requires forall slot :: slot in sys'.applied ==>
               (slot in sys.applied && sys'.applied[slot] == sys.applied[slot]) || AppliedOk(cfg, sys', slot)
    ensures AllAppliedOk(cfg, sys')
  {
    forall slot | slot in sys'.applied && slot in sys.applied && sys'.applied[slot] == sys.applied[slot]
      ensures AppliedOk(cfg, sys', slot)
    {
      assert AppliedOk(cfg, sys, slot);
      VotesKeep(cfg, sys, sys', i, slot.node, Of(sys.applied[slot]));
    }
  }

  lemma PreparesKeep(sys: System, sys': System, i: Node)
    requires PreparedOk(sys) && Grows(sys, sys', i)
    requires forall v :: v in sys'.prepared && v !in sys.prepared ==> PrepareOk(sys', v)
    ensures PreparedOk(sys')
  {
  }

  /** A step of replica i keeps the invariant when i's own state and every new vote and block are right. */
  lemma RestKeeps(cfg: Config, sys: System, sys': System, faulty: set<Node>, i: Node)
    requires Inv(cfg, sys, faulty) && Grows(sys, sys', i) && ReplicaOk(cfg, sys', faulty, i)
    requires forall v :: v in sys'.prepared && v !in sys.prepared ==> PrepareOk(sys', v)
    requires forall v :: v in sys'.committed && v !in sys.committed ==> CommitOk(cfg, sys', v)
    requires forall slot :: slot in sys'.applied ==>
               (slot in sys.applied && sys'.applied[slot] == sys.applied[slot]) || AppliedOk(cfg, sys', slot)
    ensures Inv(cfg, sys', faulty)
  {
    OthersKeep(cfg, sys, sys', faulty, i);
    PreparesKeep(sys, sys', i);
    CommitsKeep(cfg, sys, sys', i);
    AppliedKeep(cfg, sys, sys', i);
  }

  // ----- Each event -----

  lemma PrePrepareKeeps(cfg: Config, sys: System, faulty: set<Node>, i: Node, m: PrePrepare)
    requires Inv(cfg, sys, faulty) && Enabled(cfg, sys, faulty, GetPrePrepare(i, m))
    ensures Inv(cfg, Next(cfg, sys, GetPrePrepare(i, m)), faulty)
  {
    var sys' := Next(cfg, sys, GetPrePrepare(i, m));
    PrePrepareReplica(cfg, sys, faulty, i, m);
    RestKeeps(cfg, sys, sys', faulty, i);
  }

  lemma PrePrepareReplica(cfg: Config, sys: System, faulty: set<Node>, i: Node, m: PrePrepare)
    requires i in sys.reps && ReplicaOk(cfg, sys, faulty, i) && FitsSlot(sys.handed, Slot(i, m.seqId), Of(m.req))
    ensures ReplicaOk(cfg, Next(cfg, sys, GetPrePrepare(i, m)), faulty, i)
    ensures Grows(sys, Next(cfg, sys, GetPrePrepare(i, m)), i)
  {
    var r, sys' := sys.reps[i], Next(cfg, sys, GetPrePrepare(i, m));
    AuthenticGrows(cfg.n, faulty, r.prepares, sys.prepared, sys'.prepared);
  }

  lemma LeadKeeps(cfg: Config, sys: System, faulty: set<Node>, i: Node, req: Request)
    requires Inv(cfg, sys, faulty) && Enabled(cfg, sys, faulty, Lead(i, req))
    ensures Inv(cfg, Next(cfg, sys, Lead(i, req)), faulty)
  {
    var sys' := Next(cfg, sys, Lead(i, req));
    assert Grows(sys, sys', i);
    assert ReplicaOk(cfg, sys, faulty, i);
    RestKeeps(cfg, sys, sys', faulty, i);
  }

  lemma AuthenticAdd(n: nat, faulty: set<Node>, votes: Votes, sent: set<Vote>, v: Vote)
    requires Authentic(n, faulty, votes, sent) && v.sender < n && (v.sender in faulty || v in sent)
    ensures Authentic(n, faulty, votes[v.digest := VotesFor(votes, v.digest) + {v.sender}], sent)
    ensures VotesGrow(votes, votes[v.digest := VotesFor(votes, v.digest) + {v.sender}])
  {
    assert v == Vote(v.sender, v.digest, v.seqId);
    assert Backed(n, faulty, sent, v.sender, v.digest);
  }

  lemma PrepareKeeps(cfg: Config, sys: System, faulty: set<Node>, i: Node, v: Vote)
    requires Inv(cfg, sys, faulty) && Enabled(cfg, sys, faulty, GetPrepare(i, v))
    ensures Inv(cfg, Next(cfg, sys, GetPrepare(i, v)), faulty)
  {
    var sys' := Next(cfg, sys, GetPrepare(i, v));
    PrepareReplica(cfg, sys, faulty, i, v);
    RestKeeps(cfg, sys, sys', faulty, i);
  }

  lemma PrepareReplica(cfg: Config, sys: System, faulty: set<Node>, i: Node, v: Vote)
    requires i in sys.reps && ReplicaOk(cfg, sys, faulty, i) && (v.sender in faulty || v in sys.prepared)
    ensures ReplicaOk(cfg, Next(cfg, sys, GetPrepare(i, v)), faulty, i)
    ensures Grows(sys, Next(cfg, sys, GetPrepare(i, v)), i)
  {
    var r, sys' := sys.reps[i], Next(cfg, sys, GetPrepare(i, v));
    var r' := OnPrepare(cfg, r, v);
    assert r'.(prepares := r.prepares, broadcast := r.broadcast, stage := r.stage) == r;
    assert Authentic(cfg.n, faulty, r'.prepares, sys.prepared) && VotesGrow(r.prepares, r'.prepares) by {
      if CountsPrepare(cfg, r, v) {
        AuthenticAdd(cfg.n, faulty, r.prepares, sys.prepared, v);
      }
    }
    AuthenticGrows(cfg.n, faulty, r.commits, sys.committed, sys'.committed);
  }

  lemma CommitKeeps(cfg: Config, sys: System, faulty: set<Node>, i: Node, v: Vote)
    requires Inv(cfg, sys, faulty) && Enabled(cfg, sys, faulty, GetCommit(i, v))
    ensures Inv(cfg, Next(cfg, sys, GetCommit(i, v)), faulty)
  {
    var sys' := Next(cfg, sys, GetCommit(i, v));
    CommitReplica(cfg, sys, faulty, i, v);
    RestKeeps(cfg, sys, sys', faulty, i);
  }

  lemma CommitReplica(cfg: Config, sys: System, faulty: set<Node>, i: Node, v: Vote)
    requires i in sys.reps && ReplicaOk(cfg, sys, faulty, i) && (v.sender in faulty || v in sys.committed)
    ensures ReplicaOk(cfg, Next(cfg, sys, GetCommit(i, v)), faulty, i)
    ensures Grows(sys, Next(cfg, sys, GetCommit(i, v)), i)
    ensures CommitOutcome(cfg, sys.reps[i], v).Applied? ==>
              AppliedOk(cfg, Next(cfg, sys, GetCommit(i, v)), Slot(i, |sys.reps[i].chain|))
  {
    var r := sys.reps[i];
    CommitKeepsCursor(cfg, r, v);
    if CommitOutcome(cfg, r, v) != Ignored {
      AuthenticAdd(cfg.n, faulty, r.commits, sys.committed, v);
    }
  }

  lemma OldRequestsKeep(cfg: Config, sys: System, faulty: set<Node>, i: Node, resp: OldRequests)
    requires Inv(cfg, sys, faulty) && Enabled(cfg, sys, faulty, GetOldRequests(i, resp))
    ensures Inv(cfg, Next(cfg, sys, GetOldRequests(i, resp)), faulty)
  {
    var sys' := Next(cfg, sys, GetOldRequests(i, resp));
    OldRequestsReplica(cfg, sys, faulty, i, resp);
    RestKeeps(cfg, sys, sys', faulty, i);
  }

  lemma OldRequestsReplica(cfg: Config, sys: System, faulty: set<Node>, i: Node, resp: OldRequests)
    requires i in sys.reps && ReplicaOk(cfg, sys, faulty, i) && StartsAsAnnounced(resp)
    ensures var sys' := Next(cfg, sys, GetOldRequests(i, resp));
            && ReplicaOk(cfg, sys', faulty, i) && Grows(sys, sys', i)
            && forall v :: v in sys'.prepared && v !in sys.prepared ==> PrepareOk(sys', v)
  {
    var r, sys' := sys.reps[i], Next(cfg, sys, GetOldRequests(i, resp));
    AnnouncedStartAligns(cfg, r, resp);
    InstallGrows(cfg, r.chain, resp.reqs);
    if Installs(cfg, r, resp) {
      RememberKeeps(r, resp.start, resp.reqs);
    }
    AuthenticGrows(cfg.n, faulty, r.prepares, sys.prepared, sys'.prepared);
  }

  // ----- Every run -----

  lemma StepKeeps(cfg: Config, sys: System, faulty: set<Node>, e: Event)
    requires Inv(cfg, sys, faulty) && Enabled(cfg, sys, faulty, e)
    ensures Inv(cfg, Next(cfg, sys, e), faulty)
  {
    match e
    case Lead(i, req) => LeadKeeps(cfg, sys, faulty, i, req);
    case GetPrePrepare(i, m) => PrePrepareKeeps(cfg, sys, faulty, i, m);
    case GetPrepare(i, v) => PrepareKeeps(cfg, sys, faulty, i, v);
    case GetCommit(i, v) => CommitKeeps(cfg, sys, faulty, i, v);
    case GetOldRequests(i, resp) => OldRequestsKeep(cfg, sys, faulty, i, resp);
  }

  lemma {:induction false} RunKeeps(cfg: Config, sys: System, faulty: set<Node>, es: seq<Event>, sys': System)
    requires Inv(cfg, sys, faulty) && Reaches(cfg, sys, faulty, es, sys')
    ensures Inv(cfg, sys', faulty)
    decreases |es|
  {
    if es != [] {
      StepKeeps(cfg, sys, faulty, es[0]);
      RunKeeps(cfg, Next(cfg, sys, es[0]), faulty, es[1..], sys');
    }
  }

  lemma InitOk(cfg: Config, faulty: set<Node>, starts: Node -> seq<Block>)
    requires Started(starts)
    ensures Inv(cfg, Init(cfg, faulty, starts), faulty)
  {
  }

  // ----- Agreement -----

  /** A quorum of votes contains one that an honest member really sent. */
  lemma HonestVote(cfg: Config, faulty: set<Node>, votes: Votes, sent: set<Vote>, d: Digest) returns (v: Vote)
    requires Authentic(cfg.n, faulty, votes, sent) && |VotesFor(votes, d)| >= Quorum(cfg) && |faulty| <= cfg.f
    ensures v in sent && v.digest == d && v.sender !in faulty
  {
    var A := VotesFor(votes, d);
    assert !(A <= faulty) by {
      if A <= faulty {
        SubsetSize(A, faulty);
      }
    }
    var x :| x in A && x !in faulty;
    assert Backed(cfg.n, faulty, sent, x, d);
    var s :| Vote(x, d, s) in sent;
    v := Vote(x, d, s);
  }

  /** An applied request was prepared by a quorum, as counted by some honest replica. */
  lemma PreparedByQuorum(cfg: Config, sys: System, faulty: set<Node>, slot: Slot) returns (x: Node)
    requires Inv(cfg, sys, faulty) && |faulty| <= cfg.f && slot in sys.applied
    ensures x in sys.reps && |VotesFor(sys.reps[x].prepares, Of(sys.applied[slot]))| >= Quorum(cfg)
  {
    assert AppliedOk(cfg, sys, slot) && ReplicaOk(cfg, sys, faulty, slot.node);
    var v := HonestVote(cfg, faulty, sys.reps[slot.node].commits, sys.committed, Of(sys.applied[slot]));
    assert CommitOk(cfg, sys, v);
    x := v.sender;
  }

  /** The member two prepare quorums share was handed one proposal for the height of both blocks. */
  lemma QuorumsAgree(cfg: Config, sys: System, faulty: set<Node>, x: Node, y: Node, a: Request, b: Request)
    requires Inv(cfg, sys, faulty) && cfg.n == 3 * cfg.f + 1 && |faulty| <= cfg.f && x in sys.reps && y in sys.reps
    requires |VotesFor(sys.reps[x].prepares, Of(a))| >= Quorum(cfg)
    requires |VotesFor(sys.reps[y].prepares, Of(b))| >= Quorum(cfg)
    requires a.block.number == b.block.number
    ensures a == b
  {
    var A, B := VotesFor(sys.reps[x].prepares, Of(a)), VotesFor(sys.reps[y].prepares, Of(b));
    assert ReplicaOk(cfg, sys, faulty, x) && ReplicaOk(cfg, sys, faulty, y);
    assert forall z :: z in A ==> Backed(cfg.n, faulty, sys.prepared, z, Of(a));
    assert forall z :: z in B ==> Backed(cfg.n, faulty, sys.prepared, z, Of(b));
    var z := QuorumsMeet(cfg.n, cfg.f, faulty, A, B);
    var s :| Vote(z, Of(a), s) in sys.prepared;
    var t :| Vote(z, Of(b), t) in sys.prepared;
    assert PrepareOk(sys, Vote(z, Of(a), s)) && PrepareOk(sys, Vote(z, Of(b), t));
  }

  /** In every run of a group of 3f + 1 with at most f faulty members, no two honest replicas ever apply
      different requests at the same height, even while others catch up. */
  lemma Agreement(cfg: Config, faulty: set<Node>, starts: Node -> seq<Block>, es: seq<Event>, sys: System,
                  i: Node, j: Node, h: nat)
    requires Started(starts)
    requires cfg.n == 3 * cfg.f + 1 && |faulty| <= cfg.f && Reaches(cfg, Init(cfg, faulty, starts), faulty, es, sys)
    requires Slot(i, h) in sys.applied && Slot(j, h) in sys.applied
    ensures sys.applied[Slot(i, h)] == sys.applied[Slot(j, h)]
  {
    InitOk(cfg, faulty, starts);
    RunKeeps(cfg, Init(cfg, faulty, starts), faulty, es, sys);
    assert AppliedOk(cfg, sys, Slot(i, h)) && AppliedOk(cfg, sys, Slot(j, h));
    var x := PreparedByQuorum(cfg, sys, faulty, Slot(i, h));
    var y := PreparedByQuorum(cfg, sys, faulty, Slot(j, h));
    QuorumsAgree(cfg, sys, faulty, x, y, sys.applied[Slot(i, h)], sys.applied[Slot(j, h)]);
  }

  /** Between handlers the cursor of every honest replica is one past its head, over every run and
      from whatever chains the members start. */
  lemma CursorFollowsHead(cfg: Config, faulty: set<Node>, starts: Node -> seq<Block>, es: seq<Event>,
                          sys: System, i: Node)
    requires Started(starts)
    requires Reaches(cfg, Init(cfg, faulty, starts), faulty, es, sys) && i in sys.reps
    ensures Aligned(sys.reps[i])
  {
    InitOk(cfg, faulty, starts);
    RunKeeps(cfg, Init(cfg, faulty, starts), faulty, es, sys);
    assert ReplicaOk(cfg, sys, faulty, i);
  }

  // ----- Chains, when nobody catches up -----

  /** Every block above the persisted chain was applied on commit votes. */
  ghost predicate AllApplied(sys: System, starts: Node -> seq<Block>) {
    forall i, h :: i in sys.reps && 0 <= h < |sys.reps[i].chain| ==> BlockApplied(sys, starts, i, h)
  }

  ghost predicate BlockApplied(sys: System, starts: Node -> seq<Block>, i: Node, h: nat)
    requires i in sys.reps && h < |sys.reps[i].chain|
  {
    if h < |starts(i)| then sys.reps[i].chain[h] == starts(i)[h]
    else Slot(i, h) in sys.applied && sys.applied[Slot(i, h)].block == sys.reps[i].chain[h]
  }

  ghost predicate Grown(sys: System, starts: Node -> seq<Block>) {
    forall i :: i in sys.reps ==> |sys.reps[i].chain| >= |starts(i)|
  }

  ghost predicate NoCatchUp(es: seq<Event>) {
    forall k :: 0 <= k < |es| ==> !es[k].GetOldRequests?
  }

  lemma StepApplies(cfg: Config, sys: System, starts: Node -> seq<Block>, e: Event)
    requires AllApplied(sys, starts) && Grown(sys, starts) && e.i in sys.reps && !e.GetOldRequests?
    ensures AllApplied(Next(cfg, sys, e), starts) && Grown(Next(cfg, sys, e), starts)
  {
    var sys' := Next(cfg, sys, e);
    StepChains(cfg, sys, e);
    forall i, h | i in sys'.reps && 0 <= h < |sys'.reps[i].chain|
      ensures BlockApplied(sys', starts, i, h)
    {
      if h < |sys.reps[i].chain| {
        assert BlockApplied(sys, starts, i, h);
      }
    }
  }

  /** A step extends at most the chain of its own replica, by the block it records as applied there. */
  lemma StepChains(cfg: Config, sys: System, e: Event)
    requires e.i in sys.reps && !e.GetOldRequests?
    ensures var (sys', chain) := (Next(cfg, sys, e), sys.reps[e.i].chain);
            && sys'.reps.Keys == sys.reps.Keys
            && (forall j :: j in sys.reps && j != e.i ==> sys'.reps[j] == sys.reps[j])
            && (|| (sys'.reps[e.i].chain == chain && sys'.applied == sys.applied)
                || (exists req: Request :: sys'.reps[e.i].chain == chain + [req.block] &&
                                  sys'.applied == sys.applied[Slot(e.i, |chain|) := req]))
  {
    if e.GetCommit? {
      var out := CommitOutcome(cfg, sys.reps[e.i], e.v);
      assert out.Applied? ==> Next(cfg, sys, e).reps[e.i].chain == sys.reps[e.i].chain + [out.req.block];
    }
  }

  lemma {:induction false} RunApplies(cfg: Config, sys: System, faulty: set<Node>, starts: Node -> seq<Block>,
                                      es: seq<Event>, sys': System)
    requires AllApplied(sys, starts) && Grown(sys, starts) && NoCatchUp(es) && Reaches(cfg, sys, faulty, es, sys')
    ensures AllApplied(sys', starts)
    decreases |es|
  {
    if es != [] {
      StepApplies(cfg, sys, starts, es[0]);
      assert forall k :: 0 <= k < |es| - 1 ==> es[1..][k] == es[k + 1];
      RunApplies(cfg, Next(cfg, sys, es[0]), faulty, starts, es[1..], sys');
    }
  }

  /** Without catch-up, the chains of two honest replicas agree at every height both have: below their
      persisted heads if those chains did, and above them always. */
  lemma ChainsAgree(cfg: Config, faulty: set<Node>, starts: Node -> seq<Block>, es: seq<Event>, sys: System,
                    i: Node, j: Node, h: nat)
    requires Started(starts)
    requires cfg.n == 3 * cfg.f + 1 && |faulty| <= cfg.f && NoCatchUp(es)
    requires Reaches(cfg, Init(cfg, faulty, starts), faulty, es, sys)
    requires i in sys.reps && j in sys.reps && h < |sys.reps[i].chain| && h < |sys.reps[j].chain|
    requires h < |starts(i)| <==> h < |starts(j)|
    requires h < |starts(i)| ==> starts(i)[h] == starts(j)[h]
    ensures sys.reps[i].chain[h] == sys.reps[j].chain[h]
  {
    RunApplies(cfg, Init(cfg, faulty, starts), faulty, starts, es, sys);
    assert BlockApplied(sys, starts, i, h) && BlockApplied(sys, starts, j, h);
    if h >= |starts(i)| {
      Agreement(cfg, faulty, starts, es, sys, i, j, h);
    }
  }
}
