/** The message handlers of one replica, as they update its fields. */
module PbftNode {
  import opened Common
  import opened PbftReplica

  class PbftConsensusNode {
    const cfg: Config
    const nodeId: nat
    var sequenceId: nat
    var pbftStage: int
    var chain: seq<Block>
    var requestPool: map<Digest, Request>
    var cntPrepareConfirm: Votes
    var cntCommitConfirm: Votes
    var isCommitBroadcast: set<Digest>
    var isReply: set<Digest>
    var height2Digest: map<nat, Digest>

    ghost function View(): Replica
      reads this
    {
      Replica(sequenceId, pbftStage, chain, requestPool, cntPrepareConfirm, cntCommitConfirm,
              isCommitBroadcast, isReply, height2Digest)
    }

    /** The cursor starts one past the head of the persisted chain. */
    constructor (c: Config, id: nat, persisted: seq<Block>)
      requires Numbered(persisted)
      ensures View() == NewReplica(persisted) && cfg == c && nodeId == id && Aligned(View())
    {
      cfg, nodeId := c, id;
      sequenceId, pbftStage, chain := persisted[|persisted| - 1].number + 1, 1, persisted;
      requestPool, cntPrepareConfirm, cntCommitConfirm := map[], map[], map[];
      isCommitBroadcast, isReply, height2Digest := {}, {}, map[];
    }

    method Set2DMap(prepare: bool, d: Digest, sender: nat) returns (counted: bool)
      modifies this`cntPrepareConfirm, this`cntCommitConfirm
      ensures counted <==> sender < cfg.n
      ensures cntPrepareConfirm == if counted && prepare
                then old(cntPrepareConfirm)[d := VotesFor(old(cntPrepareConfirm), d) + {sender}]
                else old(cntPrepareConfirm)
      ensures cntCommitConfirm == if counted && !prepare
                then old(cntCommitConfirm)[d := VotesFor(old(cntCommitConfirm), d) + {sender}]
                else old(cntCommitConfirm)
    {
      if sender >= cfg.n {
        return false;
      }
      if prepare {
        if d !in cntPrepareConfirm {
          cntPrepareConfirm := cntPrepareConfirm[d := {}];
        }
        cntPrepareConfirm := cntPrepareConfirm[d := cntPrepareConfirm[d] + {sender}];
      } else {
        if d !in cntCommitConfirm {
          cntCommitConfirm := cntCommitConfirm[d := {}];
        }
        cntCommitConfirm := cntCommitConfirm[d := cntCommitConfirm[d] + {sender}];
      }
      return true;
    }

    method ProposeRequest(r: Request) returns (m: PrePrepare)
      requires Aligned(View())
      modifies this
      ensures View() == Propose(old(View()), r) && Aligned(View())
      ensures m == PrePrepare(r, Of(r), sequenceId)
    {
      requestPool := requestPool[Of(r) := r];
      height2Digest := height2Digest[sequenceId := Of(r)];
      m := PrePrepare(r, Of(r), sequenceId);
      pbftStage := 2;
    }

    /** Sends at most one prepare vote, for a request that is valid as the next block. */
    method HandlePrePrepare(m: PrePrepare) returns (vote: Option<Vote>)
      requires !Waits(View(), 1, m.seqId) && Aligned(View())
      modifies this
      ensures View() == OnPrePrepare(cfg, old(View()), m) && Aligned(View())
      ensures vote == if Prepares(cfg, old(View()), m) then Some(Vote(nodeId, m.digest, m.seqId)) else None
      ensures vote.Some? ==> m.req.block.number == m.seqId == |old(chain)|
    {
      vote := None;
      if m.seqId < sequenceId {
        return;
      }
      if Of(m.req) != m.digest {
        return;
      }
      var flag := false;
      if sequenceId == m.seqId {
        flag := m.req.block.number == |chain| && cfg.valid(chain, m.req.block);
      }
      requestPool := requestPool[Of(m.req) := m.req];
      height2Digest := height2Digest[m.seqId := Of(m.req)];
      if flag {
        vote := Some(Vote(nodeId, m.digest, m.seqId));
        pbftStage := pbftStage + 1;
      }
    }

    /** Sends a commit vote once, when the counted prepares reach a quorum. */
    method HandlePrepare(v: Vote) returns (vote: Option<Vote>)
      requires !Waits(View(), 2, v.seqId) && Aligned(View())
      modifies this
      ensures View() == OnPrepare(cfg, old(View()), v) && Aligned(View())
      ensures vote == if Commits(cfg, old(View()), v) then Some(Vote(nodeId, v.digest, v.seqId)) else None
      ensures vote.Some? ==> |VotesFor(cntPrepareConfirm, v.digest)| >= Quorum(cfg)
    {
      vote := None;
      if v.seqId < sequenceId || v.digest !in requestPool || sequenceId < v.seqId {
        return;
      }
      var counted := Set2DMap(true, v.digest, v.sender);
      if !counted {
        return;
      }
      if |cntPrepareConfirm[v.digest]| >= 2 * cfg.f + 1 && v.digest !in isCommitBroadcast {
        vote := Some(Vote(nodeId, v.digest, v.seqId));
        isCommitBroadcast := isCommitBroadcast + {v.digest};
        pbftStage := pbftStage + 1;
      }
    }

    /** Appends a block only on a quorum of commits; the cursor stays one past the head either way. */
    method HandleCommit(v: Vote) returns (out: Outcome)
      requires !Waits(View(), 3, v.seqId) && Aligned(View())
      modifies this
      ensures out == CommitOutcome(cfg, old(View()), v) && View() == OnCommit(cfg, old(View()), v)
      ensures Aligned(View()) && old(chain) <= chain
    {
      ghost var r := View();
      CommitKeepsCursor(cfg, r, v);
      if v.seqId < sequenceId {
        return Ignored;
      }
      var counted := Set2DMap(false, v.digest, v.sender);
      if !counted {
        return Ignored;
      }
      if |cntCommitConfirm[v.digest]| < 2 * cfg.f + 1 || v.digest in isReply {
        return Counted;
      }
      if v.digest !in requestPool {
        out := AskedFor(|chain|, v.seqId);
      } else {
        var block := requestPool[v.digest].block;
        if !ValidBlock(cfg, chain, block) {
          return Refused;
        }
        out := Applied(requestPool[v.digest]);
        chain := chain + [block];
        isReply := isReply + {v.digest};
        sequenceId := sequenceId + 1;
      }
      pbftStage := 1;
    }

    /** The longest run of known requests from the asked height on. */
    method HandleRequestOldSeq(start: nat, end: nat) returns (resp: Option<OldRequests>)
      ensures resp.Some? ==>
                var m := resp.value;
                && m.start == start && Complete(m) && m.end <= end
                && (forall h :: start <= h <= m.end ==>
                      Known(h) && m.reqs[h - start] == Some(requestPool[height2Digest[h]]))
                && (m.end == end || !Known(m.end + 1))
      ensures resp.None? ==> start > end || !Known(start)
    {
      var reqs: seq<Option<Request>> := [];
      var height := start;
      while height <= end
        invariant height == start + |reqs| && (start <= end ==> height <= end + 1) && (start > end ==> reqs == [])
        invariant forall h :: start <= h < height ==> Known(h) && reqs[h - start] == Some(requestPool[height2Digest[h]])
        decreases end + 1 - height
      {
        if height !in height2Digest || height2Digest[height] !in requestPool {
          break;
        }
        reqs := reqs + [Some(requestPool[height2Digest[height]])];
        height := height + 1;
      }
      if |reqs| == 0 {
        return None;
      }
      return Some(OldRequests(start, start + |reqs| - 1, reqs));
    }

    predicate Known(h: nat)
      reads this
    {
      h in height2Digest && height2Digest[h] in requestPool
    }

    /** Installs a response block by block; says whether all of it went in. */
    method HandleForSequentialRequest(m: OldRequests) returns (ok: bool)
      modifies this`chain
      ensures ok <==> Installs(cfg, old(View()), m)
      ensures chain == if Complete(m) then InstallPrefix(cfg, old(chain), m.reqs) else old(chain)
    {
      if m.start > m.end || |m.reqs| != m.end - m.start + 1 {
        return false;
      }
      ghost var c0 := chain;
      InstallGrows(cfg, c0, m.reqs);
      for i := 0 to |m.reqs|
        invariant |chain| == |c0| + i
        invariant InstallPrefix(cfg, chain, m.reqs[i..]) == InstallPrefix(cfg, c0, m.reqs)
      {
        var r := m.reqs[i];
        InstallGrows(cfg, chain, m.reqs[i..]);
        if r.None? || !r.value.isBlock {
          return false;
        }
        if !ValidBlock(cfg, chain, r.value.block) {
          return false;
        }
        assert m.reqs[i..][1..] == m.reqs[i + 1..];
        chain := chain + [r.value.block];
      }
      return true;
    }

    /** After a response the cursor is one past the head exactly when the response was not installed as a
        whole or started right after the head. */
    method HandleSendOldSeq(m: OldRequests) returns (vote: Option<Vote>)
      requires Aligned(View())
      modifies this
      ensures View() == OnOldRequests(cfg, old(View()), m)
      ensures vote == if Installs(cfg, old(View()), m) && PreparesNext(cfg, View())
                      then Some(Vote(nodeId, height2Digest[sequenceId], sequenceId)) else None
      ensures Aligned(View()) <==> !Installs(cfg, old(View()), m) || m.start == |old(chain)|
    {
      ghost var r0 := View();
      CatchUpCursor(cfg, r0, m);
      var ok := HandleForSequentialRequest(m);
      vote := None;
      if !ok {
        sequenceId := |chain|;
        return;
      }
      InstallGrows(cfg, r0.chain, m.reqs);
      RememberLeavesChain(r0, chain, m.start, m.reqs);
      RecordResponse(m);
      sequenceId := m.end + 1;
      if sequenceId in height2Digest && height2Digest[sequenceId] in requestPool {
        var digest := height2Digest[sequenceId];
        if ValidBlock(cfg, chain, requestPool[digest].block) {
          vote := Some(Vote(nodeId, digest, sequenceId));
        }
      }
    }

    method RecordResponse(m: OldRequests)
      requires forall i :: 0 <= i < |m.reqs| ==> m.reqs[i].Some?
      modifies this`requestPool, this`height2Digest, this`isReply
      ensures View() == Remember(old(View()), m.start, m.reqs)
    {
      for i := 0 to |m.reqs|
        invariant View() == Remember(old(View()), m.start, m.reqs[..i])
      {
        assert m.reqs[..i + 1][..i] == m.reqs[..i];
        var r := m.reqs[i].value;
        requestPool := requestPool[Of(r) := r];
        height2Digest := height2Digest[m.start + i := Of(r)];
        isReply := isReply + {Of(r)};
      }
      assert m.reqs[..|m.reqs|] == m.reqs;
    }
  }
}
