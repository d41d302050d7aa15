/** The offline placement environment: it places new addresses under the candidate mask, charges every
    batch to the shards of its ends and queues what exceeds the block capacity. */
module OfflineEnv {
  import opened Common
  import opened Candidate
  import opened CandidateTwins
  import opened CandidateBuilders
  import opened Backlog
  import opened BatchLoads
  import opened Placement

  // ----- One placement -----

  /** Keeps an allowed proposal and falls back to the best allowed shard. */
  method ChooseShard(setup: Setup, load: seq<nat>, addr: Address, offer: Offer, ghost m: map<Address, Sid>)
      returns (act: Action)
    requires addr !in m && addr != Empty && |load| > 0
    ensures Allowed(setup, m, load, act)
    ensures act.addr == addr && act.proposed == offer.proposed && act.inp.senderPos == offer.affinity
  {
    var c, inp := setup.c, Input(load, offer.affinity, setup.hash(addr));
    var mask := BuildCandidateActionMask(c, inp, setup.ws);
    var shard := SafePolicyOutput(c, inp, setup.ws, mask, offer.proposed);
    act := Action(addr, shard, offer.proposed, mask, inp);
  }

  method SafePolicyOutput(c: Config, inp: Input, ws: seq<Window>, mask: seq<int>, proposed: int) returns (shard: Sid)
    requires |inp.shardLoad| > 0
    requires IsMask(mask, |inp.shardLoad|, PyCandidates(c, inp, ws))
    ensures shard < |inp.shardLoad| && mask[shard] == 1
    ensures PyCandidates(c, inp, ws) <= Below(|inp.shardLoad|)
    ensures Chosen(PyCandidates(c, inp, ws), PyScores(c, inp, PyPressures(c, inp, ws)), proposed, shard)
  {
    var n := |inp.shardLoad|;
    var ps := OfflinePressures(c, inp, ws);
    var scores := PyScores(c, inp, ps);
    GuardSetNotEmpty(ps, c.guard != 0, c.factor, PY_CUT);
    CandidatesNotEmpty(PyGuard(c, inp, ws), scores, c.topK);
    NormalIsSame(mask, n, PyCandidates(c, inp, ws), 1);
    assert Padded(scores, n) == scores;
    var ok := ActionAllowed(Some(mask), proposed, n);
    if ok {
      shard := proposed;
    } else {
      shard := BestAllowedAction(scores, Some(mask), n);
    }
  }

  // ----- The capacity backlog over all shards -----

  ghost predicate Advanced(cap: nat, n: nat, pending: Loads, incoming: Loads, committed: Loads, carried: Loads) {
    && Sized(pending, n) && Sized(incoming, n) && Sized(committed, n) && Sized(carried, n)
    && forall s: Sid :: s < n ==>
         && LoadAt(committed, s) == Commit(cap, LoadAt(pending, s), LoadAt(incoming, s))
         && LoadAt(carried, s) == Carry(cap, LoadAt(pending, s), LoadAt(incoming, s))
  }

  function AppendLoad(ls: Loads, l: Load): Loads {
    Loads(ls.stage + [l.stage], ls.effective + [l.effective], ls.cross + [l.cross])
  }

  method ApplyCapacityBacklog(mode: int, cap: nat, n: nat, pending: Loads, incoming: Loads, stageReward: bool)
      returns (reward: seq<real>, committed: Loads, carried: Loads)
    requires Sized(pending, n) && Sized(incoming, n)
    ensures |reward| == n
    ensures mode == 0 ==> committed == incoming && carried == pending
    ensures mode == 0 ==> forall s :: 0 <= s < n ==>
              reward[s] == if stageReward then incoming.stage[s] as real else incoming.effective[s]
    ensures mode != 0 ==> Advanced(cap, n, pending, incoming, committed, carried)
    ensures mode != 0 ==> forall s: Sid :: s < n ==>
              reward[s] == Pressure(LoadAt(pending, s), LoadAt(incoming, s)).effective
  {
    if mode == 0 {
      reward := seq(n, s requires 0 <= s < n =>
                         if stageReward then incoming.stage[s] as real else incoming.effective[s]);
      return reward, incoming, pending;
    }
    reward, committed, carried := [], Loads([], [], []), Loads([], [], []);
    for s := 0 to n
      invariant |reward| == s && Sized(committed, s) && Sized(carried, s)
      invariant forall i: Sid :: i < s ==>
                  && reward[i] == Pressure(LoadAt(pending, i), LoadAt(incoming, i)).effective
                  && LoadAt(committed, i) == Commit(cap, LoadAt(pending, i), LoadAt(incoming, i))
                  && LoadAt(carried, i) == Carry(cap, LoadAt(pending, i), LoadAt(incoming, i))
    {
      var before, now := LoadAt(pending, s), LoadAt(incoming, s);
      reward := reward + [Pressure(before, now).effective];
      committed := AppendLoad(committed, Commit(cap, before, now));
      carried := AppendLoad(carried, Carry(cap, before, now));
    }
  }

  /** Every shard's pending load is what its arrivals leave behind. */
  ghost predicate Queued(cap: nat, n: nat, pending: Loads, arrivals: seq<seq<Load>>) {
    && Sized(pending, n) && |arrivals| == n
    && forall s: Sid :: s < n ==> LoadAt(pending, s) == Pending(cap, arrivals[s])
  }

  lemma NothingQueued(cap: nat, n: nat)
    ensures Queued(cap, n, NoLoads(n), seq(n, _ => []))
  {
  }

  lemma NothingPlaced(n: nat)
    ensures InRange(map[], n) && CountsPlaced(map[], seq(n, _ => 0))
  {
  }

  ghost function Arriving(arrivals: seq<seq<Load>>, incoming: Loads): (r: seq<seq<Load>>)
    requires Sized(incoming, |arrivals|)
    ensures |r| == |arrivals| && forall s: Sid :: s < |r| ==> r[s] == arrivals[s] + [LoadAt(incoming, s)]
  {
    seq(|arrivals|, s requires 0 <= s < |arrivals| => arrivals[s] + [LoadAt(incoming, s)])
  }

  lemma QueuedAdvances(cap: nat, n: nat, pending: Loads, arrivals: seq<seq<Load>>, incoming: Loads,
                       committed: Loads, carried: Loads)
    requires Queued(cap, n, pending, arrivals) && Advanced(cap, n, pending, incoming, committed, carried)
    ensures Queued(cap, n, carried, Arriving(arrivals, incoming))
  {
    forall s: Sid | s < n
      ensures LoadAt(carried, s) == Pending(cap, Arriving(arrivals, incoming)[s])
    {
      assert (arrivals[s] + [LoadAt(incoming, s)])[..|arrivals[s]|] == arrivals[s];
    }
  }

  // ----- The environment -----

  function LastFive(ws: seq<Window>): seq<Window> {
    if |ws| > WINDOWS then ws[|ws| - WINDOWS..] else ws
  }

  lemma LastFiveSlides(ws: seq<Window>, all: seq<Window>, w: Window)
    requires |all| >= WINDOWS && ws == all[|all| - WINDOWS..]
    ensures LastFive(ws + [w]) == (all + [w])[|all| + 1 - WINDOWS..]
  {
  }

  /** Why a batch is refused: a mechanism that needs real accounts, a mix of kinds, or an unsupported mode. */
  predicate Refused(v3: bool, mode: int, txs: seq<Tx>) {
    var accounts := |txs| > 0 && txs[0].realAccounts;
    || (v3 && !accounts)
    || (exists i :: 0 <= i < |txs| && txs[i].realAccounts != accounts)
    || (accounts && mode != 0 && mode != 1)
  }

  /** A batch runs exactly when its transactions are all of one kind, real ones come in mode 0 or 1, and the
      newer mechanism gets real ones only, and at least one. */
  lemma RunsExactly(v3: bool, mode: int, txs: seq<Tx>)
    ensures !Refused(v3, mode, txs) <==>
            || (!v3 && forall i :: 0 <= i < |txs| ==> !txs[i].realAccounts)
            || (txs != [] && (mode == 0 || mode == 1) && forall i :: 0 <= i < |txs| ==> txs[i].realAccounts)
  {
  }

  /** Every request is placed, unless it is the empty address. */
  ghost predicate Served(m: map<Address, Sid>, requests: seq<Address>) {
    forall a :: a in requests ==> a in m || a == Empty
  }

  lemma ServedOne(m: map<Address, Sid>, after: map<Address, Sid>, requests: seq<Address>, k: nat)
    requires k < |requests| && Served(m, requests[..k]) && m.Keys <= after.Keys
    requires requests[k] in after || requests[k] == Empty
    ensures Served(after, requests[..k + 1])
  {
    assert requests[..k + 1] == requests[..k] + [requests[k]];
  }

  datatype BatchResult = Refusal | Ran(acts: seq<Action>, loads: Loads, committed: Loads, inner: nat, relay1: nat)

  class SpringOfflineEnv {
    const shards: nat
    const c: Config
    const hash: Address -> Sid
    const mode: int
    const backlogMode: int
    const v3: bool

    var addrShard: map<Address, Sid>
    var shardLoad: seq<nat>
    var windows: seq<Window>
    var pending: Loads
    var batchId: nat
    ghost var arrivals: seq<seq<Load>>
    /** The committed stages of every batch so far, after five empty ones. */
    ghost var stages: seq<Window>

    ghost predicate Valid()
      reads this
    {
      && shards > 0 && (forall a :: hash(a) < shards)
      && InRange(addrShard, shards) && |shardLoad| == shards && CountsPlaced(addrShard, shardLoad)
      && Queued(Capacity(c.maxBlock), shards, pending, arrivals)
      && |stages| >= WINDOWS && windows == stages[|stages| - WINDOWS..]
    }

    constructor (shards: nat, c: Config, hash: Address -> Sid, mode: int, backlogMode: int, v3: bool)
      requires shards > 0 && forall a :: hash(a) < shards
      ensures Valid() && addrShard == map[] && shardLoad == seq(shards, _ => 0)
      ensures this.shards == shards && this.c == c && this.hash == hash
      ensures this.mode == mode && this.backlogMode == backlogMode && this.v3 == v3
    {
      this.shards, this.c, this.hash := shards, c, hash;
      this.mode, this.backlogMode, this.v3 := mode, backlogMode, v3;
      addrShard, shardLoad, batchId := map[], seq(shards, _ => 0), 0;
      var empty := seq(WINDOWS, _ => seq(shards, _ => 0));
      windows, stages := empty, empty;
      pending, arrivals := NoLoads(shards), seq(shards, _ => []);
      new;
      NothingPlaced(shards);
      NothingQueued(Capacity(c.maxBlock), shards);
      assert windows == stages[|stages| - WINDOWS..];
    }

    /** A new, non-empty address is placed and counted; any other request changes nothing. */
    method PlaceAddress(addr: Address, offer: Offer) returns (acts: seq<Action>)
      requires Valid()
      modifies this`addrShard, this`shardLoad
      ensures Valid()
      ensures addr == Empty || addr in old(addrShard) ==>
                acts == [] && addrShard == old(addrShard) && shardLoad == old(shardLoad)
      ensures addr != Empty && addr !in old(addrShard) ==>
                && |acts| == 1 && acts[0].addr == addr && acts[0].proposed == offer.proposed
                && acts[0].inp.senderPos == offer.affinity
                && Allowed(Setup(c, hash, windows), old(addrShard), old(shardLoad), acts[0])
                && addrShard == old(addrShard)[addr := acts[0].shard]
                && shardLoad == Bump(old(shardLoad), acts[0].shard)
    {
      if addr == Empty || addr in addrShard {
        return [];
      }
      var act := ChooseShard(Setup(c, hash, windows), shardLoad, addr, offer, addrShard);
      PlaceCounts(addrShard, shardLoad, addr, act.shard);
      addrShard := addrShard[addr := act.shard];
      shardLoad := Bump(shardLoad, act.shard);
      acts := [act];
    }

    /** The state after these placements of a batch. */
    ghost predicate Placing(m0: map<Address, Sid>, load0: seq<nat>, acts: seq<Action>)
      reads this
    {
      && Recorded(Setup(c, hash, windows), m0, load0, acts)
      && addrShard == Apply(m0, acts) && shardLoad == Tally(load0, acts)
    }

    method PlaceNext(addr: Address, offer: Offer, acts: seq<Action>, ghost m0: map<Address, Sid>, ghost load0: seq<nat>)
        returns (all: seq<Action>)
      requires Valid() && Placing(m0, load0, acts)
      modifies this`addrShard, this`shardLoad
      ensures Valid() && Placing(m0, load0, all)
      ensures addr in addrShard || addr == Empty
      ensures old(addrShard).Keys <= addrShard.Keys
    {
      var more := PlaceAddress(addr, offer);
      if more == [] {
        return acts;
      }
      RecordOne(Setup(c, hash, windows), m0, load0, acts, more[0]);
      AppendAction(m0, load0, acts, more[0]);
      all := acts + [more[0]];
    }

    /** Works through the placement requests of a batch in order. */
    method PlaceAll(requests: seq<Address>, offers: nat -> Offer) returns (acts: seq<Action>)
      requires Valid()
      modifies this`addrShard, this`shardLoad
      ensures Valid() && Placing(old(addrShard), old(shardLoad), acts)
      ensures Served(addrShard, requests)
    {
      acts := [];
      ghost var m0, load0 := addrShard, shardLoad;
      for k := 0 to |requests|
        invariant Valid() && Placing(m0, load0, acts)
        invariant Served(addrShard, requests[..k])
      {
        ghost var m := addrShard;
        acts := PlaceNext(requests[k], offers(k), acts, m0, load0);
        ServedOne(m, addrShard, requests, k);
      }
      assert requests[..|requests|] == requests;
    }

    /** Queues the loads of a batch and remembers its committed stages. */
    method AdvanceQueues(loads: Loads) returns (committed: Loads)
      requires Valid() && Sized(loads, shards)
      modifies this`pending, this`arrivals, this`windows, this`stages
      ensures Valid() && stages == old(stages) + [committed.stage]
      ensures backlogMode != 0 ==>
                && Advanced(Capacity(c.maxBlock), shards, old(pending), loads, committed, pending)
                && arrivals == Arriving(old(arrivals), loads)
      ensures backlogMode == 0 ==> committed == loads && pending == old(pending) && arrivals == old(arrivals)
    {
      var reward, done, carried :=
        ApplyCapacityBacklog(backlogMode, Capacity(c.maxBlock), shards, pending, loads, v3);
      if backlogMode != 0 {
        QueuedAdvances(Capacity(c.maxBlock), shards, pending, arrivals, loads, done, carried);
        arrivals := Arriving(arrivals, loads);
      }
      LastFiveSlides(windows, stages, done.stage);
      windows := LastFive(windows + [done.stage]);
      stages := stages + [done.stage];
      pending := carried;
      committed := done;
    }

    /** One batch. Placed addresses keep their shard, every new one goes where its mask allows, the loads are
        the counts of the batch's transactions, and pending loads advance by one step of the backlog. */
    method RunBatch(txs: seq<Tx>, offers: nat -> Offer) returns (r: BatchResult)
      requires Valid()
      modifies this
      ensures Valid() && batchId == old(batchId) + 1
      ensures r.Refusal? <==> Refused(v3, mode, txs)
      ensures r.Refusal? ==>
                && addrShard == old(addrShard) && shardLoad == old(shardLoad) && windows == old(windows)
                && pending == old(pending) && arrivals == old(arrivals) && stages == old(stages)
      ensures r.Ran? ==>
                && BatchRan(c, hash, old(addrShard), old(shardLoad), Batch(old(windows), txs, r.acts))
                && shardLoad == Tally(old(shardLoad), r.acts)
                && addrShard == Filled(Apply(old(addrShard), r.acts), hash, EndsOf(txs))
      ensures r.Ran? ==>
                && Tallies(r.loads, Routed(addrShard, hash, txs), shards)
                && r.relay1 == Count(Routed(addrShard, hash, txs), Crossing) && r.inner + r.relay1 == |txs|
                && stages == old(stages) + [r.committed.stage]
      ensures r.Ran? && backlogMode != 0 ==>
                && Advanced(Capacity(c.maxBlock), shards, old(pending), r.loads, r.committed, pending)
                && arrivals == Arriving(old(arrivals), r.loads)
      ensures r.Ran? && backlogMode == 0 ==>
                r.committed == r.loads && pending == old(pending) && arrivals == old(arrivals)
    {
      batchId := batchId + 1;
      if Refused(v3, mode, txs) {
        return Refusal;
      }
      var acts := PlaceAll(Requests(mode, txs), offers);
      ghost var placed := addrShard;
      forall a | a in EndsOf(txs)
        ensures a in placed || a == Empty
      {
        RequestsAreEnds(mode, txs, a);
      }
      var m, loads, inner, relay1 := SimulateBatchLoads(addrShard, hash, txs, shards);
      FilledCounts(placed, hash, EndsOf(txs), shardLoad);
      FilledRoutes(placed, hash, txs);
      addrShard := m;
      var committed := AdvanceQueues(loads);
      r := Ran(acts, loads, committed, inner, relay1);
    }
  }

  lemma FilledRoutes(m: map<Address, Sid>, hash: Address -> Sid, txs: seq<Tx>)
    ensures Routed(Filled(m, hash, EndsOf(txs)), hash, txs) == Routed(m, hash, txs)
  {
    forall i | 0 <= i < |txs|
      ensures EndsAt(Filled(m, hash, EndsOf(txs)), hash, txs[i]) == EndsAt(m, hash, txs[i])
    {
      FilledStep(m, hash, EndsOf(txs), txs[i].sender);
      FilledStep(m, hash, EndsOf(txs), txs[i].recipient);
    }
  }
}
