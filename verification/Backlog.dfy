/** The capacity backlog of one shard: whole block-body stages queue for a fixed capacity per batch,
    and the weighted loads are committed in the same proportion.

    Stage loads are whole numbers, since the batch simulation counts them; weighted loads are reals. */
module Backlog {
  datatype Load = Load(stage: nat, effective: real, cross: real)

  const NONE := Load(0, 0.0, 0.0)
  const EPS := 0.00000001

  function Plus(a: Load, b: Load): Load {
    Load(a.stage + b.stage, a.effective + b.effective, a.cross + b.cross)
  }

  ghost predicate NonNegative(l: Load) {
    l.effective >= 0.0 && l.cross >= 0.0
  }

  ghost predicate Splits(all: Load, done: Load, pending: Load) {
    && all.stage == done.stage + pending.stage
    && all.effective == done.effective + pending.effective
    && all.cross == done.cross + pending.cross
  }

  function Capacity(maxBlockSize: int): (c: nat)
    ensures c >= 1 && (maxBlockSize >= 1 ==> c == maxBlockSize)
  {
    if maxBlockSize > 1 then maxBlockSize else 1
  }

  function AtLeastZero(x: real): real {
    if x < 0.0 then 0.0 else x
  }

  // ----- One batch on one shard -----

  function CommittedStage(cap: nat, pressure: nat): nat {
    if pressure < cap then pressure else cap
  }

  function Ratio(cap: nat, pressure: nat): real {
    if pressure as real > EPS then CommittedStage(cap, pressure) as real / (pressure as real + EPS) else 0.0
  }

  function Portion(x: real, ratio: real): real {
    x * ratio
  }

  function Pressure(pending: Load, incoming: Load): Load {
    Load(pending.stage + incoming.stage,
         AtLeastZero(pending.effective + incoming.effective), AtLeastZero(pending.cross + incoming.cross))
  }

  function Commit(cap: nat, pending: Load, incoming: Load): Load {
    var p := Pressure(pending, incoming);
    var ratio := Ratio(cap, p.stage);
    Load(CommittedStage(cap, p.stage), Portion(p.effective, ratio), Portion(p.cross, ratio))
  }

  function Carry(cap: nat, pending: Load, incoming: Load): Load {
    var p, c := Pressure(pending, incoming), Commit(cap, pending, incoming);
    Load(p.stage - c.stage, AtLeastZero(p.effective - c.effective), AtLeastZero(p.cross - c.cross))
  }

  /** The proportion is below one, so a portion never exceeds the load and never takes all of it. */
  lemma RatioBelowOne(cap: nat, pressure: nat)
    ensures 0.0 <= Ratio(cap, pressure) < 1.0
  {
    if pressure as real > EPS {
      FractionBelowOne(CommittedStage(cap, pressure) as real, pressure as real + EPS);
    }
  }

  lemma FractionBelowOne(x: real, y: real)
    requires 0.0 <= x < y
    ensures 0.0 <= x / y < 1.0
  {
  }

  lemma PortionBounds(x: real, ratio: real)
    requires x >= 0.0 && 0.0 <= ratio < 1.0
    ensures 0.0 <= Portion(x, ratio) <= x && (x > 0.0 ==> Portion(x, ratio) < x)
  {
    Product(x, ratio);
    Product(x, 1.0 - ratio);
    assert x - Portion(x, ratio) == x * (1.0 - ratio);
  }

  lemma Product(x: real, y: real)
    requires x >= 0.0 && y >= 0.0
    ensures x * y >= 0.0 && (x > 0.0 && y > 0.0 ==> x * y > 0.0)
  {
  }

  /** Nothing is lost in one batch: what was pending and what came in is committed or stays pending. */
  lemma StepConserves(cap: nat, pending: Load, incoming: Load)
    requires NonNegative(pending) && NonNegative(incoming)
    ensures Splits(Plus(pending, incoming), Commit(cap, pending, incoming), Carry(cap, pending, incoming))
    ensures NonNegative(Commit(cap, pending, incoming)) && NonNegative(Carry(cap, pending, incoming))
    ensures Carry(cap, pending, incoming).effective > 0.0 <==> pending.effective + incoming.effective > 0.0
  {
    var p := Pressure(pending, incoming);
    RatioBelowOne(cap, p.stage);
    PortionBounds(p.effective, Ratio(cap, p.stage));
    PortionBounds(p.cross, Ratio(cap, p.stage));
  }

  // ----- Every run of one shard -----

  function Arrived(arrivals: seq<Load>): Load {
    if arrivals == [] then NONE else Plus(Arrived(arrivals[..|arrivals| - 1]), arrivals[|arrivals| - 1])
  }

  function Pending(cap: nat, arrivals: seq<Load>): Load {
    if arrivals == [] then NONE else
      Carry(cap, Pending(cap, arrivals[..|arrivals| - 1]), arrivals[|arrivals| - 1])
  }

  /** What batch t commits. */
  function CommittedAt(cap: nat, arrivals: seq<Load>, t: nat): Load
    requires t < |arrivals|
  {
    Commit(cap, Pending(cap, arrivals[..t]), arrivals[t])
  }

  function Committed(cap: nat, arrivals: seq<Load>): Load {
    if arrivals == [] then NONE else
      Plus(Committed(cap, arrivals[..|arrivals| - 1]), CommittedAt(cap, arrivals, |arrivals| - 1))
  }

  ghost predicate AllNonNegative(arrivals: seq<Load>) {
    forall t :: 0 <= t < |arrivals| ==> NonNegative(arrivals[t])
  }

  /** Arrivals so far are commits so far plus what is pending, for each kind of load. */
  lemma {:induction false} BacklogConserves(cap: nat, arrivals: seq<Load>)
    requires AllNonNegative(arrivals)
    ensures NonNegative(Pending(cap, arrivals))
    ensures Splits(Arrived(arrivals), Committed(cap, arrivals), Pending(cap, arrivals))
  {
    if arrivals != [] {
      var init, last := arrivals[..|arrivals| - 1], arrivals[|arrivals| - 1];
      BacklogConserves(cap, init);
      StepSplits(cap, Arrived(init), Committed(cap, init), Pending(cap, init), last);
    }
  }

  lemma StepSplits(cap: nat, all: Load, done: Load, pending: Load, incoming: Load)
    requires NonNegative(pending) && NonNegative(incoming) && Splits(all, done, pending)
    ensures NonNegative(Carry(cap, pending, incoming))
    ensures Splits(Plus(all, incoming), Plus(done, Commit(cap, pending, incoming)), Carry(cap, pending, incoming))
  {
    StepConserves(cap, pending, incoming);
  }

  /** No batch commits more stages than the capacity, and a batch that leaves stages pending used all of it. */
  lemma CapacityRespected(cap: nat, arrivals: seq<Load>, t: nat)
    requires t < |arrivals|
    ensures CommittedAt(cap, arrivals, t).stage <= cap
    ensures Pending(cap, arrivals[..t + 1]).stage > 0 ==> CommittedAt(cap, arrivals, t).stage == cap
  {
    assert arrivals[..t + 1][..t] == arrivals[..t];
  }

  // ----- The closed form -----

  /** How far the stages that arrived from batch k on exceed the capacity of those batches. */
  function Excess(cap: nat, arrivals: seq<Load>, k: nat): int
    requires k <= |arrivals|
  {
    if k == |arrivals| then 0 else
      Excess(cap, arrivals[..|arrivals| - 1], k) + arrivals[|arrivals| - 1].stage - cap
  }

  ghost predicate IsLargestExcess(cap: nat, arrivals: seq<Load>, x: int) {
    && (forall k :: 0 <= k <= |arrivals| ==> Excess(cap, arrivals, k) <= x)
    && (exists k :: 0 <= k <= |arrivals| && Excess(cap, arrivals, k) == x)
  }

  /** Pending stages are the largest excess over all starting points. */
  lemma {:induction false} PendingIsLargestExcess(cap: nat, arrivals: seq<Load>)
    ensures IsLargestExcess(cap, arrivals, Pending(cap, arrivals).stage)
  {
    var n := |arrivals|;
    assert Excess(cap, arrivals, n) == 0;
    if n > 0 {
      var init, last := arrivals[..n - 1], arrivals[n - 1];
      PendingIsLargestExcess(cap, init);
      var w := Pending(cap, init).stage;
      var k :| 0 <= k <= n - 1 && Excess(cap, init, k) == w;
      assert Excess(cap, arrivals, k) == w + last.stage - cap;
      forall j | 0 <= j <= n
        ensures Excess(cap, arrivals, j) <= Pending(cap, arrivals).stage
      {
        if j < n {
          assert Excess(cap, init, j) <= w;
        }
      }
    }
  }

  // ----- How the weighted loads follow the stages -----

  /** What the batch simulation delivers: a weighted load never exceeds the stages behind it. */
  ghost predicate Weighted(l: Load) {
    NonNegative(l) && l.effective <= l.stage as real && l.cross <= l.stage as real
  }

  ghost predicate Follows(l: Load) {
    NonNegative(l) && l.effective <= l.stage as real + EPS && l.cross <= l.stage as real + EPS
  }

  lemma LeftOver(x: real, c: real, p: real)
    requires 0.0 <= x <= p + EPS && 0.0 <= c <= p
    ensures x - Portion(x, c / (p + EPS)) <= p - c + EPS
  {
    var d := p + EPS;
    var r := c / d;
    assert r * d == c;
    assert 0.0 <= r < 1.0;
    assert x * (1.0 - r) <= d * (1.0 - r);
  }

  lemma StepFollows(cap: nat, pending: Load, incoming: Load)
    requires cap >= 1 && Follows(pending) && Weighted(incoming)
    ensures Follows(Carry(cap, pending, incoming))
  {
    var p := Pressure(pending, incoming);
    StepConserves(cap, pending, incoming);
    if p.stage > 0 {
      LeftOver(p.effective, CommittedStage(cap, p.stage) as real, p.stage as real);
      LeftOver(p.cross, CommittedStage(cap, p.stage) as real, p.stage as real);
    }
  }

  /** The weighted backlog never exceeds the stage backlog by more than EPS. */
  lemma {:induction false} WeightedBacklogFollowsStages(cap: nat, arrivals: seq<Load>)
    requires cap >= 1 && forall t :: 0 <= t < |arrivals| ==> Weighted(arrivals[t])
    ensures Follows(Pending(cap, arrivals))
  {
    if arrivals != [] {
      var init, last := arrivals[..|arrivals| - 1], arrivals[|arrivals| - 1];
      WeightedBacklogFollowsStages(cap, init);
      StepFollows(cap, Pending(cap, init), last);
    }
  }

  /** Commits are in proportion: of each weighted load, the share of the stages that were committed, out of the
      stages that were waiting and EPS. */
  lemma CommitsInProportion(cap: nat, pending: Load, incoming: Load)
    requires NonNegative(pending) && NonNegative(incoming)
    ensures var (all, c) := (Plus(pending, incoming), Commit(cap, pending, incoming));
            && c.stage == (if all.stage < cap then all.stage else cap)
            && c.effective * (all.stage as real + EPS) == all.effective * c.stage as real
            && c.cross * (all.stage as real + EPS) == all.cross * c.stage as real
  {
    var all, c := Plus(pending, incoming), CommittedStage(cap, pending.stage + incoming.stage);
    Proportion(all.effective, c as real, all.stage as real + EPS);
    Proportion(all.cross, c as real, all.stage as real + EPS);
  }

  lemma Proportion(x: real, c: real, d: real)
    requires d > 0.0
    ensures Portion(x, c / d) * d == x * c
  {
    assert c / d * d == c;
    assert x * (c / d) * d == x * (c / d * d);
  }

  /** Every weighted load is at least alpha per stage. */
  ghost predicate AtLeast(l: Load, alpha: real, beta: real) {
    l.effective >= Portion(l.stage as real, alpha) && l.cross >= Portion(l.stage as real, beta)
  }

  lemma KeptShare(x: real, c: real, p: real, alpha: real)
    requires alpha >= 0.0 && 0.0 <= c <= p && x >= Portion(p, alpha)
    ensures x - Portion(x, c / (p + EPS)) >= Portion(p - c, alpha)
  {
    var d := p + EPS;
    var r := c / d;
    assert r * d == c && 0.0 <= r < 1.0;
    KeptProduct(x, Portion(p, alpha), r);
    assert p * r <= c by {
      assert r * d == r * p + r * EPS;
    }
    KeptProduct(p, p, r);
    assert p - p * r >= p - c;
    ProductMonotone(alpha, p - c, p - p * r);
    assert alpha * (p - p * r) == p * alpha - p * alpha * r;
  }

  lemma KeptProduct(x: real, y: real, r: real)
    requires x >= y && r <= 1.0
    ensures x - x * r >= y - y * r
  {
    Product(x - y, 1.0 - r);
    assert (x - y) * (1.0 - r) == x - x * r - (y - y * r);
  }

  lemma ProductMonotone(a: real, x: real, y: real)
    requires a >= 0.0 && x <= y
    ensures a * x <= a * y
  {
    Product(a, y - x);
    assert a * (y - x) == a * y - a * x;
  }

  lemma StepAtLeast(cap: nat, pending: Load, incoming: Load, alpha: real, beta: real)
    requires alpha >= 0.0 && beta >= 0.0 && NonNegative(pending) && NonNegative(incoming)
    requires AtLeast(pending, alpha, beta) && AtLeast(incoming, alpha, beta)
    ensures AtLeast(Carry(cap, pending, incoming), alpha, beta)
  {
    var all, c := Plus(pending, incoming), CommittedStage(cap, pending.stage + incoming.stage);
    StepConserves(cap, pending, incoming);
    SumsAtLeast(pending, incoming, alpha, beta);
    if all.stage > 0 {
      KeptShare(all.effective, c as real, all.stage as real, alpha);
      KeptShare(all.cross, c as real, all.stage as real, beta);
    }
  }

  lemma SumsAtLeast(a: Load, b: Load, alpha: real, beta: real)
    requires AtLeast(a, alpha, beta) && AtLeast(b, alpha, beta)
    ensures AtLeast(Plus(a, b), alpha, beta)
  {
    assert (a.stage + b.stage) as real * alpha == a.stage as real * alpha + b.stage as real * alpha;
    assert (a.stage + b.stage) as real * beta == a.stage as real * beta + b.stage as real * beta;
  }

  /** Over every run, the weighted backlogs keep at least the weight per stage that all arrivals have: no batch
      commits more than its share. */
  lemma {:induction false} WeightedBacklogKeepsPace(cap: nat, arrivals: seq<Load>, alpha: real, beta: real)
    requires alpha >= 0.0 && beta >= 0.0 && AllNonNegative(arrivals)
    requires forall t :: 0 <= t < |arrivals| ==> AtLeast(arrivals[t], alpha, beta)
    ensures NonNegative(Pending(cap, arrivals)) && AtLeast(Pending(cap, arrivals), alpha, beta)
  {
    if arrivals != [] {
      var init, last := arrivals[..|arrivals| - 1], arrivals[|arrivals| - 1];
      WeightedBacklogKeepsPace(cap, init, alpha, beta);
      StepConserves(cap, Pending(cap, init), last);
      StepAtLeast(cap, Pending(cap, init), last, alpha, beta);
    }
  }

  /** The EPS in the proportion leaves a residue: once any weighted load has arrived, some stays pending
      for good, however large the capacity. */
  lemma {:induction false} ResidueNeverClears(cap: nat, arrivals: seq<Load>)
    requires AllNonNegative(arrivals)
    ensures NonNegative(Pending(cap, arrivals))
    ensures Pending(cap, arrivals).effective > 0.0 <==> exists t :: 0 <= t < |arrivals| && arrivals[t].effective > 0.0
  {
    if arrivals != [] {
      var init, last := arrivals[..|arrivals| - 1], arrivals[|arrivals| - 1];
      ResidueNeverClears(cap, init);
      StepConserves(cap, Pending(cap, init), last);
      assert forall t :: 0 <= t < |init| ==> arrivals[t] == init[t];
    }
  }

  /** One fully committed transaction is enough: with room for it, nothing is left to commit but the residue. */
  lemma ResidueExample()
    ensures var after := Carry(1, NONE, Load(1, 1.0, 0.0));
            after.stage == 0 && after.effective > 0.0
  {
    StepConserves(1, NONE, Load(1, 1.0, 0.0));
  }
}
