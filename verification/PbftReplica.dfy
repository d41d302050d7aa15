/** One honest replica of a shard's consensus group, within one view.

    A digest is the request it was computed from, or junk that no request has. A handler that the source
    blocks until a later stage is a step that is not possible yet. */
module PbftReplica {
  import opened Common

  datatype Block = Block(number: nat, payload: string)
  datatype Request = Request(isBlock: bool, block: Block)
  datatype Digest = Of(req: Request) | Junk(id: nat)

  datatype PrePrepare = PrePrepare(req: Request, digest: Digest, seqId: nat)
  datatype Vote = Vote(sender: nat, digest: Digest, seqId: nat)
  datatype OldRequests = OldRequests(start: nat, end: nat, reqs: seq<Option<Request>>)

  /** The group: its size, its fault bound, and what else makes a block valid on a chain. */
  datatype Config = Config(n: nat, f: nat, valid: (seq<Block>, Block) -> bool)

  type Votes = map<Digest, set<nat>>

  datatype Replica = Replica(
    seqId: nat,
    stage: int,
    chain: seq<Block>,
    pool: map<Digest, Request>,
    prepares: Votes,
    commits: Votes,
    broadcast: set<Digest>,
    replied: set<Digest>,
    height2Digest: map<nat, Digest>)

  const GENESIS := Block(0, "")

  /** A replica that starts on a persisted chain: the cursor is one past its head. */
  function NewReplica(chain: seq<Block>): Replica
    requires |chain| > 0
  {
    Replica(chain[|chain| - 1].number + 1, 1, chain, map[], map[], map[], {}, {}, map[])
  }

  function VotesFor(m: Votes, d: Digest): set<nat> {
    if d in m then m[d] else {}
  }

  function Quorum(cfg: Config): nat {
    2 * cfg.f + 1
  }

  /** A block is valid on a chain only as its next block. */
  predicate ValidBlock(cfg: Config, chain: seq<Block>, b: Block) {
    b.number == |chain| && cfg.valid(chain, b)
  }

  // ----- Handlers -----

  predicate Waits(r: Replica, needed: int, seqId: nat) {
    r.stage < needed && seqId >= r.seqId
  }

  function Propose(r: Replica, req: Request): Replica {
    r.(pool := r.pool[Of(req) := req], height2Digest := r.height2Digest[r.seqId := Of(req)], stage := 2)
  }

  function Noted(r: Replica, req: Request, seqId: nat): Replica {
    r.(pool := r.pool[Of(req) := req], height2Digest := r.height2Digest[seqId := Of(req)])
  }

  /** Whether a prepare vote is sent, for the digest and sequence number of the message. */
  predicate Prepares(cfg: Config, r: Replica, m: PrePrepare) {
    m.seqId == r.seqId && m.digest == Of(m.req) && ValidBlock(cfg, r.chain, m.req.block)
  }

  function OnPrePrepare(cfg: Config, r: Replica, m: PrePrepare): Replica {
    if m.seqId < r.seqId || Of(m.req) != m.digest then r
    else if Prepares(cfg, r, m) then Noted(r, m.req, m.seqId).(stage := r.stage + 1)
    else Noted(r, m.req, m.seqId)
  }

  predicate CountsPrepare(cfg: Config, r: Replica, v: Vote) {
    v.seqId == r.seqId && v.digest in r.pool && v.sender < cfg.n
  }

  /** Whether a commit vote is sent, for the digest and sequence number of the message. */
  predicate Commits(cfg: Config, r: Replica, v: Vote) {
    && CountsPrepare(cfg, r, v)
    && |VotesFor(r.prepares, v.digest) + {v.sender}| >= Quorum(cfg)
    && v.digest !in r.broadcast
  }

  function OnPrepare(cfg: Config, r: Replica, v: Vote): Replica {
    if !CountsPrepare(cfg, r, v) then r else
      var r1 := r.(prepares := r.prepares[v.digest := VotesFor(r.prepares, v.digest) + {v.sender}]);
      if Commits(cfg, r, v) then r1.(broadcast := r1.broadcast + {v.digest}, stage := r1.stage + 1) else r1
  }

  datatype Outcome = Ignored | Counted | AskedFor(start: nat, end: nat) | Refused | Applied(req: Request)

  function CommitOutcome(cfg: Config, r: Replica, v: Vote): Outcome {
    if v.seqId < r.seqId || v.sender >= cfg.n then Ignored
    else if |VotesFor(r.commits, v.digest) + {v.sender}| < Quorum(cfg) || v.digest in r.replied then Counted
    else if v.digest !in r.pool then AskedFor(|r.chain|, v.seqId)
    else if ValidBlock(cfg, r.chain, r.pool[v.digest].block) then Applied(r.pool[v.digest])
    else Refused
  }

  function OnCommit(cfg: Config, r: Replica, v: Vote): Replica {
    var out := CommitOutcome(cfg, r, v);
    if out == Ignored then r else
      var r1 := r.(commits := r.commits[v.digest := VotesFor(r.commits, v.digest) + {v.sender}]);
      match out
      case Applied(req) =>
        r1.(chain := r.chain + [req.block], replied := r.replied + {v.digest}, seqId := r.seqId + 1, stage := 1)
      case AskedFor(_, _) => r1.(stage := 1)
      case _ => r1
  }

  // ----- Catching up -----

  predicate Fits(cfg: Config, chain: seq<Block>, req: Option<Request>) {
    req.Some? && req.value.isBlock && ValidBlock(cfg, chain, req.value.block)
  }

  /** Appends recovered blocks until one is missing, of another kind, or invalid. */
  function InstallPrefix(cfg: Config, chain: seq<Block>, reqs: seq<Option<Request>>): seq<Block>
    decreases |reqs|
  {
    if reqs == [] || !Fits(cfg, chain, reqs[0]) then chain
    else InstallPrefix(cfg, chain + [reqs[0].value.block], reqs[1..])
  }

  predicate Complete(m: OldRequests) {
    m.start <= m.end && |m.reqs| == m.end - m.start + 1
  }

  /** The response was installed as a whole. */
  predicate Installs(cfg: Config, r: Replica, m: OldRequests) {
    Complete(m) && |InstallPrefix(cfg, r.chain, m.reqs)| == |r.chain| + |m.reqs|
  }

  function Remember(r: Replica, start: nat, reqs: seq<Option<Request>>): Replica
    requires forall i :: 0 <= i < |reqs| ==> reqs[i].Some?
  {
    if reqs == [] then r else
      var (n, req) := (|reqs| - 1, reqs[|reqs| - 1].value);
      var r1 := Noted(Remember(r, start, reqs[..n]), req, start + n);
      r1.(replied := r1.replied + {Of(req)})
  }

  /** What is appended are the blocks of the response in order, each carrying the height it is put at, and
      installation stops at the first request that does not fit the chain built so far. */
  lemma {:induction false} InstallAll(cfg: Config, chain: seq<Block>, reqs: seq<Option<Request>>)
    ensures var c := InstallPrefix(cfg, chain, reqs);
            && chain <= c && |c| <= |chain| + |reqs|
            && (forall i :: 0 <= i < |c| - |chain| ==> Fits(cfg, c[..|chain| + i], reqs[i]))
            && (forall i :: 0 <= i < |c| - |chain| ==> c[|chain| + i] == reqs[i].value.block)
            && (|c| < |chain| + |reqs| ==> !Fits(cfg, c, reqs[|c| - |chain|]))
    decreases |reqs|
  {
    if reqs != [] && Fits(cfg, chain, reqs[0]) {
      var next := chain + [reqs[0].value.block];
      InstallAll(cfg, next, reqs[1..]);
      var c := InstallPrefix(cfg, chain, reqs);
      assert c == InstallPrefix(cfg, next, reqs[1..]);
      assert c[..|chain|] == chain;
      forall i | 0 <= i < |c| - |chain|
        ensures Fits(cfg, c[..|chain| + i], reqs[i]) && c[|chain| + i] == reqs[i].value.block
      {
        if i > 0 {
          assert reqs[1..][i - 1] == reqs[i];
          assert Fits(cfg, c[..|next| + (i - 1)], reqs[1..][i - 1]);
        }
      }
    }
  }

  lemma InstallGrows(cfg: Config, chain: seq<Block>, reqs: seq<Option<Request>>)
    ensures var c := InstallPrefix(cfg, chain, reqs);
            && chain <= c && |c| <= |chain| + |reqs|
            && (|c| == |chain| + |reqs| ==> forall i :: 0 <= i < |reqs| ==> reqs[i].Some?)
            && (c != chain ==> |reqs| > 0 && reqs[0].Some? && reqs[0].value.block.number == |chain|)
  {
    InstallAll(cfg, chain, reqs);
  }

  /** After a full response the next known request, if valid, is prepared at once. */
  predicate PreparesNext(cfg: Config, r: Replica) {
    && r.seqId in r.height2Digest && r.height2Digest[r.seqId] in r.pool
    && ValidBlock(cfg, r.chain, r.pool[r.height2Digest[r.seqId]].block)
  }

  function AfterInstall(cfg: Config, r: Replica, m: OldRequests): Replica
    requires Installs(cfg, r, m)
  {
    InstallGrows(cfg, r.chain, m.reqs);
    Remember(r, m.start, m.reqs).(chain := InstallPrefix(cfg, r.chain, m.reqs), seqId := m.end + 1)
  }

  function OnOldRequests(cfg: Config, r: Replica, m: OldRequests): Replica {
    if Installs(cfg, r, m) then AfterInstall(cfg, r, m)
    else
      var chain := if Complete(m) then InstallPrefix(cfg, r.chain, m.reqs) else r.chain;
      r.(chain := chain, seqId := |chain|)
  }

  // ----- The cursor -----

  /** Heights are positions, and the cursor is one past the head. */
  ghost predicate Aligned(r: Replica) {
    r.seqId == |r.chain| && Numbered(r.chain)
  }

  ghost predicate Numbered(chain: seq<Block>) {
    |chain| > 0 && forall k :: 0 <= k < |chain| ==> chain[k].number == k
  }

  lemma {:induction false} InstallNumbered(cfg: Config, chain: seq<Block>, reqs: seq<Option<Request>>)
    requires Numbered(chain)
    ensures Numbered(InstallPrefix(cfg, chain, reqs))
    decreases |reqs|
  {
    if reqs != [] && Fits(cfg, chain, reqs[0]) {
      InstallNumbered(cfg, chain + [reqs[0].value.block], reqs[1..]);
    }
  }

  lemma {:induction false} RememberKeeps(r: Replica, start: nat, reqs: seq<Option<Request>>)
    requires forall i :: 0 <= i < |reqs| ==> reqs[i].Some?
    ensures var r' := Remember(r, start, reqs);
            && r'.(pool := r.pool, height2Digest := r.height2Digest, replied := r.replied) == r
            && (forall s :: s >= start + |reqs| || s < start ==>
                  (s in r'.height2Digest <==> s in r.height2Digest)
                  && (s in r.height2Digest ==> r'.height2Digest[s] == r.height2Digest[s]))
            && (forall d :: d in r'.pool ==> (d in r.pool && r'.pool[d] == r.pool[d]) || d == Of(r'.pool[d]))
  {
    if reqs != [] {
      RememberKeeps(r, start, reqs[..|reqs| - 1]);
    }
  }

  lemma {:induction false} RememberLeavesChain(r: Replica, c: seq<Block>, start: nat, reqs: seq<Option<Request>>)
    requires forall i :: 0 <= i < |reqs| ==> reqs[i].Some?
    ensures Remember(r.(chain := c), start, reqs) == Remember(r, start, reqs).(chain := c)
  {
    if reqs != [] {
      RememberLeavesChain(r, c, start, reqs[..|reqs| - 1]);
    }
  }

  /** The handlers for votes and proposals never break the alignment. */
  lemma HandlersKeepCursor(cfg: Config, r: Replica, req: Request, m: PrePrepare, v: Vote)
    requires Aligned(r)
    ensures Aligned(Propose(r, req)) && Aligned(OnPrePrepare(cfg, r, m))
    ensures Aligned(OnPrepare(cfg, r, v)) && Aligned(OnCommit(cfg, r, v))
  {
    CommitKeepsCursor(cfg, r, v);
  }

  lemma CommitKeepsCursor(cfg: Config, r: Replica, v: Vote)
    requires Aligned(r)
    ensures Aligned(OnCommit(cfg, r, v))
  {
    var out := CommitOutcome(cfg, r, v);
    if out.Applied? {
      assert OnCommit(cfg, r, v).chain == r.chain + [out.req.block];
    }
  }

  /** A catch-up response keeps the cursor aligned exactly when it is not installed as a whole, or starts
      right after the head. */
  lemma CatchUpCursor(cfg: Config, r: Replica, m: OldRequests)
    requires Aligned(r)
    ensures Aligned(OnOldRequests(cfg, r, m)) <==> !Installs(cfg, r, m) || m.start == |r.chain|
  {
    InstallNumbered(cfg, r.chain, m.reqs);
    InstallGrows(cfg, r.chain, m.reqs);
    if Installs(cfg, r, m) {
      RememberKeeps(r, m.start, m.reqs);
    }
  }

  /** A response whose first block carries its announced start height meets that condition. */
  ghost predicate StartsAsAnnounced(m: OldRequests) {
    |m.reqs| > 0 && m.reqs[0].Some? ==> m.reqs[0].value.block.number == m.start
  }

  lemma AnnouncedStartAligns(cfg: Config, r: Replica, m: OldRequests)
    requires Aligned(r) && StartsAsAnnounced(m)
    ensures Aligned(OnOldRequests(cfg, r, m))
  {
    CatchUpCursor(cfg, r, m);
    InstallGrows(cfg, r.chain, m.reqs);
  }

  /** A response that lies about its start drags the cursor away from the head. */
  lemma WrongStartMisaligns()
    ensures exists cfg, r, m :: Aligned(r) && !Aligned(OnOldRequests(cfg, r, m))
  {
    var cfg := Config(4, 1, (_, _) => true);
    var b := Block(1, "x");
    var m := OldRequests(5, 5, [Some(Request(true, b))]);
    var r := NewReplica([GENESIS]);
    assert InstallPrefix(cfg, r.chain + [b], m.reqs[1..]) == r.chain + [b];
    assert Installs(cfg, r, m);
    CatchUpCursor(cfg, r, m);
  }
}
