/** A quorum is enough: votes of 2f + 1 members commit a block, and honest members alone can always decide. */
module PbftProgress {
  import opened Common
  import opened PbftReplica
  import opened Pbft

  // ----- One vote -----

  /** A vote that completes a quorum of prepares makes the replica send its own commit vote. */
  lemma PrepareQuorumVotes(cfg: Config, sys: System, i: Node, v: Vote)
    requires i in sys.reps
    requires var r := sys.reps[i];
             && v.seqId == r.seqId && v.digest in r.pool && v.sender < cfg.n && v.digest !in r.broadcast
             && |VotesFor(r.prepares, v.digest) + {v.sender}| >= 2 * cfg.f + 1
    ensures var (r, sys') := (sys.reps[i], Next(cfg, sys, GetPrepare(i, v)));
            && Vote(i, v.digest, v.seqId) in sys'.committed
            && sys'.reps[i].stage == r.stage + 1 && v.digest in sys'.reps[i].broadcast
  {
  }

  /** A vote that completes a quorum of commits appends the block, moves the cursor and returns to stage 1. */
  lemma CommitQuorumApplies(cfg: Config, r: Replica, v: Vote)
    requires v.seqId >= r.seqId && v.sender < cfg.n && v.digest in r.pool && v.digest !in r.replied
    requires |VotesFor(r.commits, v.digest) + {v.sender}| >= 2 * cfg.f + 1
    requires r.pool[v.digest].block.number == |r.chain| && cfg.valid(r.chain, r.pool[v.digest].block)
    ensures var r' := OnCommit(cfg, r, v);
            && r'.chain == r.chain + [r.pool[v.digest].block] && r'.seqId == r.seqId + 1 && r'.stage == 1
            && v.digest in r'.replied
  {
  }

  /** A leader that proposes can answer for its proposal at that height from then on. */
  lemma ProposalIsKnown(cfg: Config, sys: System, faulty: set<Node>, i: Node, req: Request)
    requires i in sys.reps && sys.reps[i].stage == 1 && Slot(i, sys.reps[i].seqId) !in sys.handed
    ensures Enabled(cfg, sys, faulty, Lead(i, req))
    ensures var (r, r') := (sys.reps[i], Next(cfg, sys, Lead(i, req)).reps[i]);
            && r.seqId in r'.height2Digest && r'.height2Digest[r.seqId] in r'.pool
            && r'.pool[r'.height2Digest[r.seqId]] == req && r'.stage == 2 && r'.chain == r.chain
  {
  }

  /** A replica that is handed a proposal with the right digest knows it at that height, valid or not. */
  lemma HandedIsKnown(cfg: Config, r: Replica, m: PrePrepare)
    requires m.seqId >= r.seqId && m.digest == Of(m.req)
    ensures var r' := OnPrePrepare(cfg, r, m);
            m.digest in r'.pool && r'.pool[m.digest] == m.req && m.seqId in r'.height2Digest
            && r'.height2Digest[m.seqId] == m.digest
  {
  }

  /** A quorum of commits for an unknown request makes the replica ask for everything from its own next height
      to the voted one; and it takes any answer whose first block carries the announced height. */
  lemma MissingIsAskedFor(cfg: Config, sys: System, faulty: set<Node>, i: Node, v: Vote, m: OldRequests)
    requires i in sys.reps
    requires var r := sys.reps[i];
             && v.seqId >= r.seqId && v.sender < cfg.n && v.digest !in r.pool && v.digest !in r.replied
             && |VotesFor(r.commits, v.digest) + {v.sender}| >= 2 * cfg.f + 1
    ensures CommitOutcome(cfg, sys.reps[i], v) == AskedFor(|sys.reps[i].chain|, v.seqId)
    ensures OnCommit(cfg, sys.reps[i], v).chain == sys.reps[i].chain && OnCommit(cfg, sys.reps[i], v).stage == 1
    ensures StartsAsAnnounced(m) ==> Enabled(cfg, sys, faulty, GetOldRequests(i, m))
  {
  }

  // ----- Every honest member decides -----

  /** What changes at one member leaves the others alone and takes no vote back. */
  ghost predicate OnlyAt(sys: System, sys': System, i: Node) {
    && sys'.reps.Keys == sys.reps.Keys && i in sys.reps
    && (forall j :: j in sys.reps && j != i ==> sys'.reps[j] == sys.reps[j])
    && sys.prepared <= sys'.prepared && sys.committed <= sys'.committed
    && (forall slot: Slot :: slot.node != i && slot in sys'.handed ==>
          slot in sys.handed && sys'.handed[slot] == sys.handed[slot])
  }

  /** The replica knows the request, and its block is the next one of the replica's chain. */
  ghost predicate Pooled(cfg: Config, r: Replica, req: Request, chain: seq<Block>) {
    && r.chain == chain && r.seqId == |chain| == req.block.number && cfg.valid(chain, req.block)
    && Of(req) in r.pool && r.pool[Of(req)] == req && Of(req) !in r.replied
  }

  /** How far a member has come with a request, from not yet handed it to having appended its block. */
  ghost predicate Phase(k: nat, cfg: Config, sys: System, i: Node, req: Request, chain: seq<Block>) {
    i in sys.reps &&
    var (r, d) := (sys.reps[i], Of(req));
    if k == 0 then
      && r.chain == chain && r.seqId == |chain| == req.block.number && cfg.valid(chain, req.block)
      && r.stage >= 1 && d !in r.broadcast && d !in r.replied && FitsSlot(sys.handed, Slot(i, r.seqId), d)
    else if k == 1 then
      Pooled(cfg, r, req, chain) && r.stage >= 2 && d !in r.broadcast && Vote(i, d, |chain|) in sys.prepared
    else if k == 2 then
      Pooled(cfg, r, req, chain) && r.stage >= 3 && Vote(i, d, |chain|) in sys.committed
    else
      r.chain == chain + [req.block] && r.seqId == |chain| + 1
  }

  lemma OthersStay(k: nat, cfg: Config, sys: System, sys': System, i: Node, j: Node, req: Request, chain: seq<Block>)
    requires OnlyAt(sys, sys', i) && j != i && Phase(k, cfg, sys, j, req, chain)
    ensures Phase(k, cfg, sys', j, req, chain)
  {
  }

  lemma {:induction false} ThenReaches(cfg: Config, sys: System, faulty: set<Node>, es: seq<Event>, mid: System,
                                       rest: seq<Event>, sys': System)
    requires Reaches(cfg, sys, faulty, es, mid) && Reaches(cfg, mid, faulty, rest, sys')
    ensures Reaches(cfg, sys, faulty, es + rest, sys')
    decreases |es|
  {
    if es == [] {
      assert es + rest == rest;
    } else {
      ThenReaches(cfg, Next(cfg, sys, es[0]), faulty, es[1..], mid, rest, sys');
      assert (es + rest)[1..] == es[1..] + rest;
    }
  }

  lemma OneReaches(cfg: Config, sys: System, faulty: set<Node>, e: Event)
    requires Enabled(cfg, sys, faulty, e)
    ensures Reaches(cfg, sys, faulty, [e], Next(cfg, sys, e))
  {
    assert [e][1..] == [];
    assert Reaches(cfg, Next(cfg, sys, e), faulty, [], Next(cfg, sys, e));
  }

  /** Handing the proposal to a member makes it prepare. */
  lemma HandProposal(cfg: Config, sys: System, faulty: set<Node>, i: Node, req: Request, chain: seq<Block>)
      returns (es: seq<Event>, sys': System)
    requires Phase(0, cfg, sys, i, req, chain)
    ensures Reaches(cfg, sys, faulty, es, sys') && OnlyAt(sys, sys', i) && Phase(1, cfg, sys', i, req, chain)
  {
    var e := GetPrePrepare(i, PrePrepare(req, Of(req), |chain|));
    es, sys' := [e], Next(cfg, sys, e);
    OneReaches(cfg, sys, faulty, e);
  }

  /** While a quorum of prepares is missing no commit vote has been sent; once it is there, one has. */
  ghost predicate Preparing(cfg: Config, sys: System, i: Node, req: Request, chain: seq<Block>)
    requires i in sys.reps
  {
    var (r, d) := (sys.reps[i], Of(req));
    Pooled(cfg, r, req, chain) && r.stage >= 2 && (d in r.broadcast ==> Phase(2, cfg, sys, i, req, chain))
  }

  lemma CountPrepare(cfg: Config, sys: System, i: Node, req: Request, chain: seq<Block>, x: Node)
    requires i in sys.reps && Preparing(cfg, sys, i, req, chain) && x < cfg.n
    ensures var (sys', d) := (Next(cfg, sys, GetPrepare(i, Vote(x, Of(req), |chain|))), Of(req));
            && OnlyAt(sys, sys', i) && Preparing(cfg, sys', i, req, chain)
            && VotesFor(sys'.reps[i].prepares, d) == VotesFor(sys.reps[i].prepares, d) + {x}
            && (|VotesFor(sys'.reps[i].prepares, d)| >= 2 * cfg.f + 1 ==> d in sys'.reps[i].broadcast)
  {
  }

  lemma {:induction false} CountPrepares(cfg: Config, sys: System, faulty: set<Node>, i: Node, req: Request,
                                         chain: seq<Block>, voters: seq<Node>)
      returns (es: seq<Event>, sys': System)
    requires i in sys.reps && Preparing(cfg, sys, i, req, chain)
    requires forall x :: x in voters ==> x < cfg.n && Vote(x, Of(req), |chain|) in sys.prepared
    ensures Reaches(cfg, sys, faulty, es, sys') && OnlyAt(sys, sys', i) && Preparing(cfg, sys', i, req, chain)
    ensures VotesFor(sys.reps[i].prepares, Of(req)) <= VotesFor(sys'.reps[i].prepares, Of(req))
    ensures forall x :: x in voters ==> x in VotesFor(sys'.reps[i].prepares, Of(req))
    ensures voters != [] && |VotesFor(sys'.reps[i].prepares, Of(req))| >= 2 * cfg.f + 1 ==>
              Of(req) in sys'.reps[i].broadcast
    ensures voters == [] ==> sys' == sys
    decreases |voters|
  {
    if voters == [] {
      es, sys' := [], sys;
    } else {
      var e := GetPrepare(i, Vote(voters[0], Of(req), |chain|));
      assert voters[0] in voters && forall x :: x in voters[1..] ==> x in voters;
      assert forall x :: x in voters ==> x == voters[0] || x in voters[1..];
      CountPrepare(cfg, sys, i, req, chain, voters[0]);
      OneReaches(cfg, sys, faulty, e);
      var rest;
      rest, sys' := CountPrepares(cfg, Next(cfg, sys, e), faulty, i, req, chain, voters[1..]);
      ThenReaches(cfg, sys, faulty, [e], Next(cfg, sys, e), rest, sys');
      es := [e] + rest;
    }
  }

  /** Either the block is not applied and a quorum of commits is missing, or it is applied. */
  ghost predicate Committing(cfg: Config, sys: System, i: Node, req: Request, chain: seq<Block>)
    requires i in sys.reps
  {
    || (Pooled(cfg, sys.reps[i], req, chain) && sys.reps[i].stage >= 3)
    || Phase(3, cfg, sys, i, req, chain)
  }

  lemma CountCommit(cfg: Config, sys: System, i: Node, req: Request, chain: seq<Block>, x: Node)
    requires i in sys.reps && Committing(cfg, sys, i, req, chain) && x < cfg.n
    ensures var (sys', d) := (Next(cfg, sys, GetCommit(i, Vote(x, Of(req), |chain|))), Of(req));
            && OnlyAt(sys, sys', i) && Committing(cfg, sys', i, req, chain)
            && (Phase(3, cfg, sys', i, req, chain) ||
                (&& VotesFor(sys'.reps[i].commits, d) == VotesFor(sys.reps[i].commits, d) + {x}
                 && |VotesFor(sys'.reps[i].commits, d)| < 2 * cfg.f + 1))
            && (Phase(3, cfg, sys, i, req, chain) ==> Phase(3, cfg, sys', i, req, chain))
  {
    var v := Vote(x, Of(req), |chain|);
    if Pooled(cfg, sys.reps[i], req, chain) && |VotesFor(sys.reps[i].commits, v.digest) + {x}| >= 2 * cfg.f + 1 {
      CommitQuorumApplies(cfg, sys.reps[i], v);
    }
  }

  lemma {:induction false} CountCommits(cfg: Config, sys: System, faulty: set<Node>, i: Node, req: Request,
                                        chain: seq<Block>, voters: seq<Node>)
      returns (es: seq<Event>, sys': System)
    requires i in sys.reps && Committing(cfg, sys, i, req, chain)
    requires forall x :: x in voters ==> x < cfg.n && Vote(x, Of(req), |chain|) in sys.committed
    ensures Reaches(cfg, sys, faulty, es, sys') && OnlyAt(sys, sys', i) && Committing(cfg, sys', i, req, chain)
    ensures Phase(3, cfg, sys, i, req, chain) ==> Phase(3, cfg, sys', i, req, chain)
    ensures Phase(3, cfg, sys', i, req, chain) ||
            (&& VotesFor(sys.reps[i].commits, Of(req)) <= VotesFor(sys'.reps[i].commits, Of(req))
             && (forall x :: x in voters ==> x in VotesFor(sys'.reps[i].commits, Of(req)))
             && (voters != [] ==> |VotesFor(sys'.reps[i].commits, Of(req))| < 2 * cfg.f + 1))
    ensures voters == [] ==> sys' == sys
    decreases |voters|
  {
    if voters == [] {
      es, sys' := [], sys;
    } else {
      var e := GetCommit(i, Vote(voters[0], Of(req), |chain|));
      assert voters[0] in voters && forall x :: x in voters[1..] ==> x in voters;
      assert forall x :: x in voters ==> x == voters[0] || x in voters[1..];
      CountCommit(cfg, sys, i, req, chain, voters[0]);
      OneReaches(cfg, sys, faulty, e);
      var rest;
      rest, sys' := CountCommits(cfg, Next(cfg, sys, e), faulty, i, req, chain, voters[1..]);
      ThenReaches(cfg, sys, faulty, [e], Next(cfg, sys, e), rest, sys');
      es := [e] + rest;
    }
  }

  /** The honest members, in some order; they are a quorum. */
  ghost predicate Honest(cfg: Config, sys: System, members: seq<Node>) {
    && (forall x :: x in members <==> x in sys.reps) && (forall x :: x in members ==> x < cfg.n)
    && |sys.reps.Keys| >= 2 * cfg.f + 1
  }

  lemma QuorumOf(members: seq<Node>, A: set<Node>, H: set<Node>)
    requires (forall x :: x in members <==> x in H) && (forall x :: x in members ==> x in A)
    ensures |H| <= |A|
  {
    SubsetSize(H, A);
  }

  /** Every member's vote of the phase before is on the network. */
  ghost predicate AllVoted(k: nat, sys: System, members: seq<Node>, req: Request, chain: seq<Block>) {
    && (k == 2 ==> forall x :: x in members ==> Vote(x, Of(req), |chain|) in sys.prepared)
    && (k == 3 ==> forall x :: x in members ==> Vote(x, Of(req), |chain|) in sys.committed)
  }

  lemma MemberAdvances(k: nat, cfg: Config, sys: System, faulty: set<Node>, members: seq<Node>, i: Node, req: Request,
                       chain: seq<Block>)
      returns (es: seq<Event>, sys': System)
    requires 1 <= k <= 3 && Honest(cfg, sys, members) && i in members && AllVoted(k, sys, members, req, chain)
    requires Phase(k - 1, cfg, sys, i, req, chain)
    ensures Reaches(cfg, sys, faulty, es, sys') && OnlyAt(sys, sys', i) && Phase(k, cfg, sys', i, req, chain)
  {
    if k == 1 {
      es, sys' := HandProposal(cfg, sys, faulty, i, req, chain);
    } else if k == 2 {
      es, sys' := CountPrepares(cfg, sys, faulty, i, req, chain, members);
      QuorumOf(members, VotesFor(sys'.reps[i].prepares, Of(req)), sys.reps.Keys);
    } else {
      es, sys' := CountCommits(cfg, sys, faulty, i, req, chain, members);
      if !Phase(3, cfg, sys', i, req, chain) {
        QuorumOf(members, VotesFor(sys'.reps[i].commits, Of(req)), sys.reps.Keys);
      }
    }
  }

  /** All members pass from one phase to the next, one after another. */
  lemma {:induction false} AllAdvance(k: nat, cfg: Config, sys: System, faulty: set<Node>, members: seq<Node>,
                                      todo: seq<Node>, req: Request, chain: seq<Block>)
      returns (es: seq<Event>, sys': System)
    requires 1 <= k <= 3 && Honest(cfg, sys, members) && AllVoted(k, sys, members, req, chain)
    requires Distinct(todo) && forall x :: x in todo ==> x in members
    requires forall x :: x in members ==> Phase(if x in todo then k - 1 else k, cfg, sys, x, req, chain)
    ensures Reaches(cfg, sys, faulty, es, sys') && Honest(cfg, sys', members)
    ensures forall x :: x in members ==> Phase(k, cfg, sys', x, req, chain)
    decreases |todo|
  {
    if todo == [] {
      es, sys' := [], sys;
    } else {
      var i, rest := todo[0], todo[1..];
      assert forall x :: x in todo <==> x == i || x in rest;
      assert i !in rest;
      var first, mid := MemberAdvances(k, cfg, sys, faulty, members, i, req, chain);
      forall x | x in members
        ensures Phase(if x in rest then k - 1 else k, cfg, mid, x, req, chain)
      {
        if x != i {
          OthersStay(if x in todo then k - 1 else k, cfg, sys, mid, i, x, req, chain);
        }
      }
      var more;
      more, sys' := AllAdvance(k, cfg, mid, faulty, members, rest, req, chain);
      ThenReaches(cfg, sys, faulty, first, mid, more, sys');
      es := first + more;
    }
  }

  /** One whole pass, after which every member's vote of this phase is on the network. */
  lemma Pass(k: nat, cfg: Config, sys: System, faulty: set<Node>, members: seq<Node>, req: Request, chain: seq<Block>)
      returns (es: seq<Event>, sys': System)
    requires 1 <= k <= 3 && Honest(cfg, sys, members) && AllVoted(k, sys, members, req, chain) && Distinct(members)
    requires forall x :: x in members ==> Phase(k - 1, cfg, sys, x, req, chain)
    ensures Reaches(cfg, sys, faulty, es, sys') && Honest(cfg, sys', members)
    ensures AllVoted(k + 1, sys', members, req, chain)
    ensures forall x :: x in members ==> Phase(k, cfg, sys', x, req, chain)
  {
    es, sys' := AllAdvance(k, cfg, sys, faulty, members, members, req, chain);
    forall x | x in members
      ensures k == 1 ==> Vote(x, Of(req), |chain|) in sys'.prepared
      ensures k == 2 ==> Vote(x, Of(req), |chain|) in sys'.committed
    {
      assert Phase(k, cfg, sys', x, req, chain);
    }
  }

  lemma {:induction false} Listed(S: set<Node>) returns (xs: seq<Node>)
    ensures Distinct(xs) && forall x :: x in xs <==> x in S
    decreases |S|
  {
    if S == {} {
      xs := [];
    } else {
      var x :| x in S;
      var rest := Listed(S - {x});
      xs := [x] + rest;
    }
  }

  /** From any state in which 2f + 1 honest members have the same chain, are idle on the next height and have
      not been handed another proposal for it, there is a run, with the faulty members silent, after which every
      one of them has appended the proposed block. */
  lemma HonestMembersDecide(cfg: Config, sys: System, faulty: set<Node>, req: Request, chain: seq<Block>)
      returns (es: seq<Event>, sys': System)
    requires |sys.reps.Keys| >= 2 * cfg.f + 1 && forall x :: x in sys.reps ==> x < cfg.n
    requires forall x :: x in sys.reps ==> Phase(0, cfg, sys, x, req, chain)
    ensures Reaches(cfg, sys, faulty, es, sys') && sys'.reps.Keys == sys.reps.Keys
    ensures forall x :: x in sys'.reps ==>
              sys'.reps[x].chain == chain + [req.block] && sys'.reps[x].seqId == |chain| + 1
  {
    var members := Listed(sys.reps.Keys);
    es, sys' := ThreePasses(cfg, sys, faulty, members, req, chain);
    forall x | x in sys'.reps
      ensures sys'.reps[x].chain == chain + [req.block] && sys'.reps[x].seqId == |chain| + 1
    {
      assert Phase(3, cfg, sys', x, req, chain);
    }
  }

  lemma ThreePasses(cfg: Config, sys: System, faulty: set<Node>, members: seq<Node>, req: Request, chain: seq<Block>)
      returns (es: seq<Event>, sys': System)
    requires Honest(cfg, sys, members) && Distinct(members)
    requires forall x :: x in members ==> Phase(0, cfg, sys, x, req, chain)
    ensures Reaches(cfg, sys, faulty, es, sys') && Honest(cfg, sys', members)
    ensures forall x :: x in members ==> Phase(3, cfg, sys', x, req, chain)
  {
    var es1, sys1 := Pass(1, cfg, sys, faulty, members, req, chain);
    var es2, sys2 := Pass(2, cfg, sys1, faulty, members, req, chain);
    var es3;
    es3, sys' := Pass(3, cfg, sys2, faulty, members, req, chain);
    ThenReaches(cfg, sys, faulty, es1, sys1, es2, sys2);
    ThenReaches(cfg, sys, faulty, es1 + es2, sys2, es3, sys');
    es := es1 + es2 + es3;
  }

  /** In a group of 3f + 1 with at most f faulty members, one that starts on a common chain can append any next
      valid block at every honest member. */
  lemma GroupDecides(cfg: Config, faulty: set<Node>, starts: Node -> seq<Block>, req: Request, chain: seq<Block>)
      returns (es: seq<Event>, sys: System)
    requires cfg.n == 3 * cfg.f + 1 && |faulty| <= cfg.f && Started(starts) && forall x :: starts(x) == chain
    requires req.block.number == |chain| && cfg.valid(chain, req.block)
    ensures Reaches(cfg, Init(cfg, faulty, starts), faulty, es, sys)
    ensures forall x: Node :: x < cfg.n && x !in faulty ==> x in sys.reps && sys.reps[x].chain == chain + [req.block]
  {
    var start := Init(cfg, faulty, starts);
    assert starts(0) == chain;
    HonestAreQuorum(cfg.n, cfg.f, faulty, start.reps.Keys);
    es, sys := HonestMembersDecide(cfg, start, faulty, req, chain);
  }

  lemma HonestAreQuorum(n: nat, f: nat, faulty: set<Node>, H: set<Node>)
    requires n == 3 * f + 1 && |faulty| <= f && forall x: Node :: x in H <==> x < n && x !in faulty
    ensures |H| >= 2 * f + 1
  {
    var bad := Below(n) * faulty;
    assert H == Below(n) - bad;
    SubsetSize(bad, faulty);
    assert Below(n) == H + bad;
  }

  // ----- One commit vote per digest -----

  ghost predicate VotedOnce(sys: System) {
    && (forall v :: v in sys.committed && v.sender in sys.reps ==> v.digest in sys.reps[v.sender].broadcast)
    && (forall v, w :: v in sys.committed && w in sys.committed && SameVoter(sys, v, w) ==> v == w)
  }

  ghost predicate SameVoter(sys: System, v: Vote, w: Vote) {
    v.sender in sys.reps && v.sender == w.sender && v.digest == w.digest
  }

  lemma StepVotesOnce(cfg: Config, sys: System, faulty: set<Node>, e: Event)
    requires Enabled(cfg, sys, faulty, e) && VotedOnce(sys)
    ensures VotedOnce(Next(cfg, sys, e))
  {
    BroadcastStays(cfg, sys, e);
  }

  lemma BroadcastStays(cfg: Config, sys: System, e: Event)
    requires e.i in sys.reps
    ensures var sys' := Next(cfg, sys, e);
            && sys'.reps.Keys == sys.reps.Keys
            && (forall j :: j in sys.reps && j != e.i ==> sys'.reps[j] == sys.reps[j])
            && sys.reps[e.i].broadcast <= sys'.reps[e.i].broadcast
  {
    if e.GetOldRequests? && Installs(cfg, sys.reps[e.i], e.resp) {
      InstallGrows(cfg, sys.reps[e.i].chain, e.resp.reqs);
      RememberKeeps(sys.reps[e.i], e.resp.start, e.resp.reqs);
    }
  }

  /** Over every run, an honest member sends at most one commit vote per digest. */
  lemma {:induction false} CommitVotesOnce(cfg: Config, sys: System, faulty: set<Node>, es: seq<Event>, sys': System)
    requires VotedOnce(sys) && Reaches(cfg, sys, faulty, es, sys')
    ensures VotedOnce(sys')
    decreases |es|
  {
    if es != [] {
      StepVotesOnce(cfg, sys, faulty, es[0]);
      CommitVotesOnce(cfg, Next(cfg, sys, es[0]), faulty, es[1..], sys');
    }
  }

  // ----- Catching up -----

  function BlocksOf(reqs: seq<Option<Request>>): seq<Block>
    requires forall k :: 0 <= k < |reqs| ==> reqs[k].Some?
  {
    seq(|reqs|, k requires 0 <= k < |reqs| => reqs[k].value.block)
  }

  /** Each request is the next valid block after those before it. */
  ghost predicate Continues(cfg: Config, chain: seq<Block>, reqs: seq<Option<Request>>) {
    && (forall k :: 0 <= k < |reqs| ==> reqs[k].Some? && reqs[k].value.isBlock)
    && (forall k :: 0 <= k < |reqs| ==>
          && reqs[k].value.block.number == |chain| + k
          && cfg.valid(chain + BlocksOf(reqs[..k]), reqs[k].value.block))
  }

  lemma {:induction false} ContinuedInFull(cfg: Config, chain: seq<Block>, reqs: seq<Option<Request>>)
    requires Continues(cfg, chain, reqs)
    ensures InstallPrefix(cfg, chain, reqs) == chain + BlocksOf(reqs)
  {
    InstallAll(cfg, chain, reqs);
    var c := InstallPrefix(cfg, chain, reqs);
    var n := |c| - |chain|;
    assert c == chain + BlocksOf(reqs[..n]) by {
      assert forall i :: 0 <= i < n ==> BlocksOf(reqs[..n])[i] == c[|chain| + i];
    }
    if n < |reqs| {
      assert Fits(cfg, c, reqs[n]);
    }
    assert reqs[..n] == reqs;
  }

  /** A complete answer that continues the chain is installed whole: the chain gains all its blocks and the
      cursor is one past the last. */
  lemma CatchUpCompletes(cfg: Config, r: Replica, m: OldRequests)
    requires m.start == |r.chain| && m.start <= m.end && |m.reqs| == m.end - m.start + 1
    requires Continues(cfg, r.chain, m.reqs)
    ensures var r' := OnOldRequests(cfg, r, m); r'.chain == r.chain + BlocksOf(m.reqs) && r'.seqId == m.end + 1
  {
    ContinuedInFull(cfg, r.chain, m.reqs);
  }

  /** After such an answer the request noted for the next height, if valid there, is prepared at once. */
  lemma CatchUpPrepares(cfg: Config, sys: System, i: Node, m: OldRequests)
    requires i in sys.reps && m.start == |sys.reps[i].chain| && m.start <= m.end && |m.reqs| == m.end - m.start + 1
    requires Continues(cfg, sys.reps[i].chain, m.reqs)
    requires var r := sys.reps[i];
             var (next, chain) := (m.end + 1, r.chain + BlocksOf(m.reqs));
             && next in r.height2Digest && r.height2Digest[next] in r.pool
             && (forall d :: d in r.pool ==> d == Of(r.pool[d]))
             && r.pool[r.height2Digest[next]].block.number == next
             && cfg.valid(chain, r.pool[r.height2Digest[next]].block)
    ensures Vote(i, sys.reps[i].height2Digest[m.end + 1], m.end + 1) in Next(cfg, sys, GetOldRequests(i, m)).prepared
  {
    CatchUpCompletes(cfg, sys.reps[i], m);
    ContinuedInFull(cfg, sys.reps[i].chain, m.reqs);
    RememberKeeps(sys.reps[i], m.start, m.reqs);
    RememberPool(sys.reps[i], m.start, m.reqs);
  }

  lemma {:induction false} RememberPool(r: Replica, start: nat, reqs: seq<Option<Request>>)
    requires (forall i :: 0 <= i < |reqs| ==> reqs[i].Some?) && forall d :: d in r.pool ==> d == Of(r.pool[d])
    ensures forall d :: d in r.pool ==>
              d in Remember(r, start, reqs).pool && Remember(r, start, reqs).pool[d] == r.pool[d]
    ensures forall d :: d in Remember(r, start, reqs).pool ==> d == Of(Remember(r, start, reqs).pool[d])
  {
    if reqs != [] {
      RememberPool(r, start, reqs[..|reqs| - 1]);
    }
  }
}
