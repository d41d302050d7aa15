/** The continuous rollout: transitions whose chained rewards and discounts add up to the discounted
    return over transaction batches, whether or not a batch placed anything. */
module Rollout {
  datatype Transition = Transition(reward: real, discount: real, done: bool)
  datatype Action = Action(localReward: real, isPpo: bool)
  datatype Batch = Batch(actions: seq<Action>, reward: real)
  datatype Params = Params(gamma: real, localWeight: real, scale: real, minActions: nat, minBatches: nat)

  /** The collector. Flushed transitions have been handed to an update since the epoch began. */
  datatype Collector = Collector(
    buffer: seq<Transition>,
    flushed: seq<Transition>,
    batches: nat,
    pending: bool,
    elapsed: nat,
    executed: nat,
    revisitOnly: nat,
    globalSum: real,
    revisitSum: real)

  datatype Outcome = Done | NoPlacementYet | DecisionSkipped | NotPpo

  const EMPTY := Collector([], [], 0, false, 0, 0, 0, 0.0, 0.0)

  function Pow(g: real, n: nat): real {
    if n == 0 then 1.0 else Pow(g, n - 1) * g
  }

  function Times(x: real, y: real): real {
    x * y
  }

  /** A reward that arrives n batches later. */
  function Later(g: real, n: nat, reward: real): real {
    Times(Pow(g, n), reward)
  }

  function Clip(x: real): real {
    if x < -1.0 then -1.0 else if x > 1.0 then 1.0 else x
  }

  // ----- What the transitions are worth -----

  /** The return rebuilt by chaining: each transition's reward, then its discount times the rest. */
  function Chained(ts: seq<Transition>): real {
    if ts == [] then 0.0 else ts[0].reward + ts[0].discount * Chained(ts[1..])
  }

  function Weight(ts: seq<Transition>): real {
    if ts == [] then 1.0 else ts[0].discount * Weight(ts[1..])
  }

  function GlobalReward(p: Params, b: Batch): real {
    p.scale * (1.0 - p.localWeight) * Clip(b.reward)
  }

  function LocalReward(p: Params, b: Batch, i: nat): real
    requires i < |b.actions|
  {
    p.scale * p.localWeight * Clip(b.actions[i].localReward) / |b.actions| as real
  }

  function ClipSum(actions: seq<Action>): real {
    if actions == [] then 0.0 else ClipSum(actions[..|actions| - 1]) + Clip(actions[|actions| - 1].localReward)
  }

  function Mean(p: Params, sum: real, n: nat): real
    requires n > 0
  {
    p.scale * p.localWeight * (sum / n as real)
  }

  /** The reference value of a batch: the mean local reward of its placements, if any, plus its global
      reward once. */
  function BatchValue(p: Params, b: Batch): real {
    (if b.actions == [] then 0.0 else Mean(p, ClipSum(b.actions), |b.actions|)) + GlobalReward(p, b)
  }

  function Values(p: Params, bs: seq<Batch>): (vs: seq<real>)
    ensures |vs| == |bs|
  {
    if bs == [] then [] else Values(p, bs[..|bs| - 1]) + [BatchValue(p, bs[|bs| - 1])]
  }

  /** The reference return: batch t counts with gamma to the t. */
  function Discounted(gamma: real, vs: seq<real>): real {
    if vs == [] then 0.0 else Discounted(gamma, vs[..|vs| - 1]) + Later(gamma, |vs| - 1, vs[|vs| - 1])
  }

  // ----- The collector's operations -----

  function Flush(s: Collector): Collector {
    s.(flushed := s.flushed + s.buffer, buffer := [], batches := 0)
  }

  function WithLast(ts: seq<Transition>, t: Transition): seq<Transition>
    requires ts != []
  {
    ts[..|ts| - 1] + [t]
  }

  function Last(ts: seq<Transition>): Transition
    requires ts != []
  {
    ts[|ts| - 1]
  }

  function BeforeDecision(p: Params, s: Collector): Collector
    requires s.pending ==> s.buffer != []
  {
    if !s.pending then s else
      var t := Last(s.buffer).(discount := Pow(p.gamma, s.elapsed));
      var s1 := s.(buffer := WithLast(s.buffer, t), pending := false);
      if |s1.buffer| >= p.minActions && s1.batches >= p.minBatches then Flush(s1) else s1
  }

  /** The transitions of the first k placements; the last placement of the batch carries the global reward. */
  function Placed(p: Params, b: Batch, k: nat): (ts: seq<Transition>)
    requires k <= |b.actions|
    ensures |ts| == k
  {
    if k == 0 then [] else
      Placed(p, b, k - 1)
      + [Transition(LocalReward(p, b, k - 1) + (if k == |b.actions| then GlobalReward(p, b) else 0.0), 1.0, false)]
  }

  function PpoPrefix(actions: seq<Action>): (k: nat)
    ensures k <= |actions| && (forall i :: 0 <= i < k ==> actions[i].isPpo)
    ensures k < |actions| ==> !actions[k].isPpo
  {
    if actions == [] then 0 else
      var k := PpoPrefix(actions[..|actions| - 1]);
      if k == |actions| - 1 && actions[k].isPpo then k + 1 else k
  }

  function Counted(p: Params, s: Collector, b: Batch): Collector {
    s.(executed := s.executed + 1, batches := s.batches + 1, globalSum := s.globalSum + GlobalReward(p, b))
  }

  function AddBatch(p: Params, s: Collector, b: Batch): (Collector, Outcome)
    requires s.pending ==> s.buffer != []
  {
    var s0 := Counted(p, s, b);
    if b.actions == [] then
      var s1 := s0.(revisitOnly := s0.revisitOnly + 1, revisitSum := s0.revisitSum + GlobalReward(p, b));
      if !s.pending then (s1, NoPlacementYet) else
        var t := Last(s.buffer);
        (s1.(buffer := WithLast(s.buffer, t.(reward := t.reward + Later(p.gamma, s.elapsed, GlobalReward(p, b)))),
             elapsed := s.elapsed + 1), Done)
    else if s.pending then (s0, DecisionSkipped)
    else
      var k := PpoPrefix(b.actions);
      var s1 := s0.(buffer := s.buffer + Placed(p, b, k));
      if k < |b.actions| then (s1, NotPpo) else (s1.(pending := true, elapsed := 1), Done)
  }

  function Finish(s: Collector): Collector {
    if s.buffer == [] then s.(pending := false)
    else Flush(s.(buffer := WithLast(s.buffer, Last(s.buffer).(discount := 0.0, done := true)))).(pending := false)
  }

  // ----- Chaining -----

  lemma {:induction false} ChainedConcat(xs: seq<Transition>, ys: seq<Transition>)
    ensures Chained(xs + ys) == Chained(xs) + Times(Weight(xs), Chained(ys))
    ensures Weight(xs + ys) == Times(Weight(xs), Weight(ys))
  {
    if xs == [] {
      assert xs + ys == ys;
    } else {
      assert (xs + ys)[1..] == xs[1..] + ys;
      ChainedConcat(xs[1..], ys);
      Expand(xs[0].discount, Chained(xs[1..]), Weight(xs[1..]), Chained(ys));
      Reassociate(xs[0].discount, Weight(xs[1..]), Weight(ys));
    }
  }

  lemma Expand(d: real, a: real, w: real, b: real)
    ensures d * (a + w * b) == d * a + (d * w) * b
  {
  }

  lemma Reassociate(a: real, b: real, c: real)
    ensures a * (b * c) == (a * b) * c
  {
  }

  lemma ChainedOne(t: Transition)
    ensures Chained([t]) == t.reward && Weight([t]) == t.discount
  {
    assert [t][1..] == [];
  }

  lemma {:induction false} PowAdd(g: real, m: nat, n: nat)
    ensures Pow(g, m + n) == Times(Pow(g, m), Pow(g, n))
  {
    if n > 0 {
      PowAdd(g, m, n - 1);
      Reassociate(Pow(g, m), Pow(g, n - 1), g);
    }
  }

  // ----- What every error-free run keeps -----

  /** Every transition of the epoch, flushed or not. */
  function AllOf(s: Collector): seq<Transition> {
    s.flushed + s.buffer
  }

  /** The chained return is the discounted return of the batches so far; the next transition will start
      at the discount of the next batch; and a pending transition already holds every batch since its own. */
  ghost predicate Accounts(gamma: real, s: Collector, vs: seq<real>) {
    && Chained(AllOf(s)) == Discounted(gamma, vs)
    && (s.pending ==>
          && s.buffer != [] && s.elapsed <= |vs|
          && Weight(Head(s.flushed, s.buffer)) == Pow(gamma, |vs| - s.elapsed))
    && (!s.pending ==> Weight(AllOf(s)) == Pow(gamma, |vs|))
  }

  /** What the transitions before the last one are worth, and where the last one starts. */
  function Head(flushed: seq<Transition>, buffer: seq<Transition>): seq<Transition>
    requires buffer != []
  {
    flushed + buffer[..|buffer| - 1]
  }

  lemma LastWorth(flushed: seq<Transition>, buffer: seq<Transition>)
    requires buffer != []
    ensures var (head, t) := (Head(flushed, buffer), Last(buffer));
            && Chained(flushed + buffer) == Chained(head) + Times(Weight(head), t.reward)
            && Weight(flushed + buffer) == Times(Weight(head), t.discount)
  {
    var head, t := Head(flushed, buffer), Last(buffer);
    assert flushed + buffer == head + [t];
    ChainedConcat(head, [t]);
    ChainedOne(t);
  }

  lemma ReplaceLast(flushed: seq<Transition>, buffer: seq<Transition>, t: Transition)
    requires buffer != []
    ensures Last(WithLast(buffer, t)) == t && Head(flushed, WithLast(buffer, t)) == Head(flushed, buffer)
  {
    assert WithLast(buffer, t)[..|buffer| - 1] == buffer[..|buffer| - 1];
  }

  lemma FlushKeepsAll(s: Collector)
    ensures AllOf(Flush(s)) == AllOf(s)
  {
  }

  /** Giving the last transition another discount changes only what would follow it. */
  lemma SetDiscount(flushed: seq<Transition>, buffer: seq<Transition>, t: Transition)
    requires buffer != [] && t.reward == Last(buffer).reward
    ensures Chained(flushed + WithLast(buffer, t)) == Chained(flushed + buffer)
    ensures Weight(flushed + WithLast(buffer, t)) == Times(Weight(Head(flushed, buffer)), t.discount)
  {
    LastWorth(flushed, buffer);
    ReplaceLast(flushed, buffer, t);
    LastWorth(flushed, WithLast(buffer, t));
  }

  lemma DecisionKeeps(p: Params, s: Collector, vs: seq<real>)
    requires Accounts(p.gamma, s, vs)
    ensures Accounts(p.gamma, BeforeDecision(p, s), vs) && !BeforeDecision(p, s).pending
  {
    if s.pending {
      var t := Last(s.buffer).(discount := Pow(p.gamma, s.elapsed));
      var s1 := s.(buffer := WithLast(s.buffer, t), pending := false);
      SetDiscount(s.flushed, s.buffer, t);
      PowAdd(p.gamma, |vs| - s.elapsed, s.elapsed);
      FlushKeepsAll(s1);
      assert AllOf(BeforeDecision(p, s)) == AllOf(s1);
    }
  }

  lemma DiscountedAppend(gamma: real, vs: seq<real>, v: real)
    ensures Discounted(gamma, vs + [v]) == Discounted(gamma, vs) + Later(gamma, |vs|, v)
  {
    assert (vs + [v])[..|vs|] == vs;
  }

  /** Raising the last reward raises the chained return by as much, at the discount of that transition. */
  lemma RaiseReward(flushed: seq<Transition>, buffer: seq<Transition>, t: Transition, extra: real)
    requires buffer != [] && t.reward == Last(buffer).reward + extra
    ensures Chained(flushed + WithLast(buffer, t)) ==
            Chained(flushed + buffer) + Times(Weight(Head(flushed, buffer)), extra)
    ensures WithLast(buffer, t) != [] && Head(flushed, WithLast(buffer, t)) == Head(flushed, buffer)
  {
    LastWorth(flushed, buffer);
    ReplaceLast(flushed, buffer, t);
    LastWorth(flushed, WithLast(buffer, t));
    Sum(Weight(Head(flushed, buffer)), Last(buffer).reward, extra);
  }

  lemma Sum(w: real, a: real, b: real)
    ensures Times(w, a + b) == Times(w, a) + Times(w, b)
  {
  }

  lemma LaterValue(gamma: real, n: nat, elapsed: nat, g: real)
    requires elapsed <= n
    ensures Times(Pow(gamma, n - elapsed), Later(gamma, elapsed, g)) == Later(gamma, n, g)
  {
    PowAdd(gamma, n - elapsed, elapsed);
    Reassociate(Pow(gamma, n - elapsed), Pow(gamma, elapsed), g);
  }

  lemma RaiseKeeps(gamma: real, s: Collector, vs: seq<real>, g: real, s': Collector)
    requires Accounts(gamma, s, vs) && s.pending
    requires var t := Last(s.buffer);
             s'.buffer == WithLast(s.buffer, t.(reward := t.reward + Later(gamma, s.elapsed, g)))
    requires s'.flushed == s.flushed && s'.pending && s'.elapsed == s.elapsed + 1
    ensures Accounts(gamma, s', vs + [g])
  {
    var extra := Later(gamma, s.elapsed, g);
    RaiseReward(s.flushed, s.buffer, Last(s.buffer).(reward := Last(s.buffer).reward + extra), extra);
    LaterValue(gamma, |vs|, s.elapsed, g);
    DiscountedAppend(gamma, vs, g);
  }

  /** A batch without placements adds its discounted global reward to the pending transition. */
  lemma RevisitKeeps(p: Params, s: Collector, vs: seq<real>, b: Batch)
    requires Accounts(p.gamma, s, vs) && b.actions == [] && s.pending
    ensures Accounts(p.gamma, AddBatch(p, s, b).0, vs + [BatchValue(p, b)])
  {
    RaiseKeeps(p.gamma, s, vs, GlobalReward(p, b), AddBatch(p, s, b).0);
    assert BatchValue(p, b) == GlobalReward(p, b);
  }

  // ----- A batch with placements -----

  function LocalSum(p: Params, b: Batch, k: nat): real
    requires k <= |b.actions|
  {
    if k == 0 then 0.0 else LocalSum(p, b, k - 1) + LocalReward(p, b, k - 1)
  }

  lemma {:induction false} PlacedWorth(p: Params, b: Batch, k: nat)
    requires k <= |b.actions|
    ensures Weight(Placed(p, b, k)) == 1.0
    ensures Chained(Placed(p, b, k)) ==
            LocalSum(p, b, k) + (if k == |b.actions| && k > 0 then GlobalReward(p, b) else 0.0)
  {
    if k > 0 {
      PlacedWorth(p, b, k - 1);
      var last := if k == |b.actions| then GlobalReward(p, b) else 0.0;
      var t := Transition(LocalReward(p, b, k - 1) + last, 1.0, false);
      ChainedConcat(Placed(p, b, k - 1), [t]);
      ChainedOne(t);
    }
  }

  lemma {:induction false} LocalSumIsMean(p: Params, b: Batch, k: nat)
    requires k <= |b.actions| && |b.actions| > 0
    ensures LocalSum(p, b, k) == Mean(p, ClipSum(b.actions[..k]), |b.actions|)
  {
    var n := |b.actions|;
    if k == 0 {
      MeanOfNothing(p, n);
    } else {
      LocalSumIsMean(p, b, k - 1);
      assert b.actions[..k][..k - 1] == b.actions[..k - 1];
      MeanStep(p, b, ClipSum(b.actions[..k - 1]), k - 1);
    }
  }

  lemma MeanOfNothing(p: Params, n: nat)
    requires n > 0
    ensures Mean(p, 0.0, n) == 0.0
  {
    assert 0.0 / n as real == 0.0;
  }

  lemma MeanStep(p: Params, b: Batch, sum: real, i: nat)
    requires i < |b.actions|
    ensures Mean(p, sum + Clip(b.actions[i].localReward), |b.actions|) ==
            Mean(p, sum, |b.actions|) + LocalReward(p, b, i)
  {
    ScaleSplits(p.scale * p.localWeight, sum, Clip(b.actions[i].localReward), |b.actions| as real);
  }

  lemma ScaleSplits(c: real, x: real, y: real, n: real)
    requires n > 0.0
    ensures c * ((x + y) / n) == c * (x / n) + c * y / n
  {
    assert (x + y) / n == x / n + y / n;
    assert c * y / n == c * (y / n);
  }

  lemma PlacedIsBatchValue(p: Params, b: Batch)
    requires b.actions != []
    ensures Chained(Placed(p, b, |b.actions|)) == BatchValue(p, b) && Weight(Placed(p, b, |b.actions|)) == 1.0
  {
    PlacedWorth(p, b, |b.actions|);
    LocalSumIsMean(p, b, |b.actions|);
    assert b.actions[..|b.actions|] == b.actions;
  }

  /** Appending transitions that are worth v and do not discount adds the value v at the current discount. */
  lemma AppendWorth(gamma: real, s: Collector, vs: seq<real>, ts: seq<Transition>, v: real, s': Collector)
    requires Accounts(gamma, s, vs) && !s.pending && ts != []
    requires Chained(ts) == v && Weight(ts[..|ts| - 1]) == 1.0
    requires s'.buffer == s.buffer + ts && s'.flushed == s.flushed && s'.pending && s'.elapsed == 1
    ensures Accounts(gamma, s', vs + [v])
  {
    AppendShape(s, ts, s');
    AppendChained(gamma, AllOf(s), ts, vs, v);
    WeightOne(AllOf(s), ts[..|ts| - 1]);
    assert |vs + [v]| - s'.elapsed == |vs|;
  }

  lemma AppendShape(s: Collector, ts: seq<Transition>, s': Collector)
    requires ts != [] && s'.buffer == s.buffer + ts && s'.flushed == s.flushed
    ensures AllOf(s') == AllOf(s) + ts
    ensures Head(s'.flushed, s'.buffer) == AllOf(s) + ts[..|ts| - 1]
  {
    assert (s.buffer + ts)[..|s.buffer + ts| - 1] == s.buffer + ts[..|ts| - 1];
  }

  lemma AppendChained(gamma: real, all: seq<Transition>, ts: seq<Transition>, vs: seq<real>, v: real)
    requires Chained(all) == Discounted(gamma, vs) && Weight(all) == Pow(gamma, |vs|) && Chained(ts) == v
    ensures Chained(all + ts) == Discounted(gamma, vs + [v])
  {
    ChainedConcat(all, ts);
    DiscountedAppend(gamma, vs, v);
  }

  lemma WeightOne(xs: seq<Transition>, ys: seq<Transition>)
    requires Weight(ys) == 1.0
    ensures Weight(xs + ys) == Weight(xs)
  {
    ChainedConcat(xs, ys);
  }

  /** A batch with placements starts its transitions at its own discount. */
  lemma PlacementKeeps(p: Params, s: Collector, vs: seq<real>, b: Batch)
    requires Accounts(p.gamma, s, vs) && b.actions != [] && !s.pending && AddBatch(p, s, b).1 == Done
    ensures Accounts(p.gamma, AddBatch(p, s, b).0, vs + [BatchValue(p, b)])
  {
    PlacedIsBatchValue(p, b);
    PlacedWorthBeforeLast(p, b);
    AppendWorth(p.gamma, s, vs, Placed(p, b, |b.actions|), BatchValue(p, b), AddBatch(p, s, b).0);
  }

  lemma PlacedWorthBeforeLast(p: Params, b: Batch)
    requires b.actions != []
    ensures var ts := Placed(p, b, |b.actions|); Weight(ts[..|ts| - 1]) == 1.0 && Last(ts).discount == 1.0
  {
    PlacedWorth(p, b, |b.actions| - 1);
    assert Placed(p, b, |b.actions|)[..|b.actions| - 1] == Placed(p, b, |b.actions| - 1);
  }

  // ----- Every run -----

  datatype Event = Decide | RunBatch(b: Batch)

  function Step(p: Params, s: Collector, e: Event): (Collector, Outcome)
    requires s.pending ==> s.buffer != []
  {
    match e
    case Decide => (BeforeDecision(p, s), Done)
    case RunBatch(b) => AddBatch(p, s, b)
  }

  function BatchesOf(es: seq<Event>): seq<Batch> {
    if es == [] then [] else
      BatchesOf(es[..|es| - 1]) + (if es[|es| - 1].RunBatch? then [es[|es| - 1].b] else [])
  }

  /** The run raised no error. */
  ghost predicate RunsTo(p: Params, es: seq<Event>, s: Collector) {
    if es == [] then s == EMPTY else
      exists m ::
        && RunsTo(p, es[..|es| - 1], m) && (m.pending ==> m.buffer != [])
        && Step(p, m, es[|es| - 1]) == (s, Done)
  }

  lemma StepAccounts(p: Params, s: Collector, vs: seq<real>, e: Event)
    requires Accounts(p.gamma, s, vs) && Step(p, s, e).1 == Done
    ensures Accounts(p.gamma, Step(p, s, e).0, if e.RunBatch? then vs + [BatchValue(p, e.b)] else vs)
  {
    match e
    case Decide =>
      DecisionKeeps(p, s, vs);
    case RunBatch(b) =>
      if b.actions == [] {
        RevisitKeeps(p, s, vs, b);
      } else {
        PlacementKeeps(p, s, vs, b);
      }
  }

  lemma {:induction false} RunAccounts(p: Params, es: seq<Event>, s: Collector)
    requires RunsTo(p, es, s)
    ensures Accounts(p.gamma, s, Values(p, BatchesOf(es)))
  {
    if es == [] {
      assert AllOf(s) == [];
    } else {
      var init, e := es[..|es| - 1], es[|es| - 1];
      var m :| RunsTo(p, init, m) && (m.pending ==> m.buffer != []) && Step(p, m, e) == (s, Done);
      RunAccounts(p, init, m);
      StepAccounts(p, m, Values(p, BatchesOf(init)), e);
      ValuesStep(p, es);
    }
  }

  lemma ValuesStep(p: Params, es: seq<Event>)
    requires es != []
    ensures var (vs, e) := (Values(p, BatchesOf(es[..|es| - 1])), es[|es| - 1]);
            Values(p, BatchesOf(es)) == if e.RunBatch? then vs + [BatchValue(p, e.b)] else vs
  {
    var bs, e := BatchesOf(es[..|es| - 1]), es[|es| - 1];
    if e.RunBatch? {
      assert BatchesOf(es) == bs + [e.b];
      assert (bs + [e.b])[..|bs|] == bs;
    } else {
      assert BatchesOf(es) == bs;
    }
  }

  lemma FinishKeepsReturn(s: Collector)
    ensures Finish(s).buffer == [] && Chained(Finish(s).flushed) == Chained(AllOf(s))
  {
    if s.buffer == [] {
      assert AllOf(s) == s.flushed;
    } else {
      var t := Last(s.buffer).(discount := 0.0, done := true);
      LastWorth(s.flushed, s.buffer);
      ReplaceLast(s.flushed, s.buffer, t);
      LastWorth(s.flushed, WithLast(s.buffer, t));
    }
  }

  /** For every error-free run, finishing the epoch hands over transitions that chain to the discounted
      return of its batches, each batch's global reward counted once. */
  lemma ReturnIsDiscountedBatches(p: Params, es: seq<Event>, s: Collector)
    requires RunsTo(p, es, s)
    ensures Finish(s).buffer == [] && Chained(Finish(s).flushed) == Discounted(p.gamma, Values(p, BatchesOf(es)))
  {
    RunAccounts(p, es, s);
    FinishKeepsReturn(s);
  }
}
