/** What one transaction batch loads onto each shard: counts of transactions by the shards of their ends. */
module BatchLoads {
  import opened Candidate
  import opened Backlog

  /** The shards of the sender and the recipient. */
  datatype Ends = Ends(from: Sid, to: Sid)

  // ----- The reference: counting transactions -----

  predicate Crosses(e: Ends) {
    e.from != e.to
  }

  predicate Touches(e: Ends, s: Sid) {
    e.from == s || e.to == s
  }

  datatype Kind = Crossing | Touching(s: Sid) | CrossTouching(s: Sid)

  predicate Fits(e: Ends, k: Kind) {
    match k
    case Crossing => Crosses(e)
    case Touching(s) => Touches(e, s)
    case CrossTouching(s) => Crosses(e) && Touches(e, s)
  }

  function Count(es: seq<Ends>, k: Kind): (c: nat)
    ensures c <= |es|
  {
    if es == [] then 0 else Count(es[..|es| - 1], k) + (if Fits(es[|es| - 1], k) then 1 else 0)
  }

  /** A transaction that crosses shards takes a whole stage on both sides and half a unit of weight. */
  function LoadOf(es: seq<Ends>, s: Sid): Load {
    var half := Count(es, CrossTouching(s)) as real / 2.0;
    Load(Count(es, Touching(s)), Count(es, Touching(s)) as real - half, half)
  }

  lemma CountStep(es: seq<Ends>, e: Ends, k: Kind)
    ensures Count(es + [e], k) == Count(es, k) + (if Fits(e, k) then 1 else 0)
  {
    assert (es + [e])[..|es|] == es;
  }

  lemma LoadStep(es: seq<Ends>, e: Ends, s: Sid)
    ensures var (l, l') := (LoadOf(es, s), LoadOf(es + [e], s));
            && l'.stage == l.stage + (if Touches(e, s) then 1 else 0)
            && l'.cross == l.cross + (if Crosses(e) && Touches(e, s) then 0.5 else 0.0)
            && l'.effective == l.effective + (if !Touches(e, s) then 0.0 else if Crosses(e) then 0.5 else 1.0)
  {
    CountStep(es, e, Touching(s));
    CountStep(es, e, CrossTouching(s));
  }

  lemma {:induction false} CrossWithinTouch(es: seq<Ends>, s: Sid)
    ensures Count(es, CrossTouching(s)) <= Count(es, Touching(s))
  {
    if es != [] {
      var init, e := es[..|es| - 1], es[|es| - 1];
      assert es == init + [e];
      CrossWithinTouch(init, s);
      LoadStep(init, e, s);
    }
  }

  /** Per shard: effective plus cross is stage, and a weighted load never exceeds the stages behind it. */
  lemma LoadSplits(es: seq<Ends>, s: Sid)
    ensures LoadOf(es, s).effective + LoadOf(es, s).cross == LoadOf(es, s).stage as real
    ensures Weighted(LoadOf(es, s))
  {
    CrossWithinTouch(es, s);
  }

  /** Effective load is at least half a unit per stage. */
  lemma LoadAtLeastHalf(es: seq<Ends>, s: Sid)
    ensures AtLeast(LoadOf(es, s), 0.5, 0.0)
  {
    CrossWithinTouch(es, s);
  }

  // ----- Totals over all shards -----

  function Bump(xs: seq<nat>, s: nat): (ys: seq<nat>)
    requires s < |xs|
    ensures |ys| == |xs|
  {
    xs[s := xs[s] + 1]
  }

  function Raise(xs: seq<real>, s: nat, d: real): (ys: seq<real>)
    requires s < |xs|
    ensures |ys| == |xs|
  {
    xs[s := xs[s] + d]
  }

  lemma {:induction false} SumBump(xs: seq<nat>, s: nat)
    requires s < |xs|
    ensures SumNat(Bump(xs, s)) == SumNat(xs) + 1
  {
    var xs', n := Bump(xs, s), |xs|;
    if s == n - 1 {
      assert xs'[..n - 1] == xs[..n - 1];
    } else {
      SumBump(xs[..n - 1], s);
      assert xs'[..n - 1] == Bump(xs[..n - 1], s);
    }
  }

  lemma {:induction false} SumRaise(xs: seq<real>, s: nat, d: real)
    requires s < |xs|
    ensures SumReal(Raise(xs, s, d)) == SumReal(xs) + d
  {
    var xs', n := Raise(xs, s, d), |xs|;
    if s == n - 1 {
      assert xs'[..n - 1] == xs[..n - 1];
    } else {
      SumRaise(xs[..n - 1], s, d);
      assert xs'[..n - 1] == Raise(xs[..n - 1], s, d);
    }
  }

  lemma SumHalves(xs: seq<real>, s: nat, t: nat)
    requires s < |xs| && t < |xs|
    ensures SumReal(Raise(Raise(xs, s, 0.5), t, 0.5)) == SumReal(xs) + 1.0
  {
    SumRaise(xs, s, 0.5);
    SumRaise(Raise(xs, s, 0.5), t, 0.5);
  }

  lemma {:induction false} SumZeros(n: nat)
    ensures SumNat(seq(n, _ => 0)) == 0 && SumReal(seq(n, _ => 0.0)) == 0.0
  {
    if n > 0 {
      SumZeros(n - 1);
      assert seq(n, _ => 0)[..n - 1] == seq(n - 1, _ => 0);
      assert seq(n, _ => 0.0)[..n - 1] == seq(n - 1, _ => 0.0);
    }
  }

  // ----- The accumulating vectors -----

  datatype Loads = Loads(stage: seq<nat>, effective: seq<real>, cross: seq<real>)

  ghost predicate Sized(l: Loads, n: nat) {
    |l.stage| == n && |l.effective| == n && |l.cross| == n
  }

  function LoadAt(l: Loads, s: Sid): Load
    requires s < |l.stage| && s < |l.effective| && s < |l.cross|
  {
    Load(l.stage[s], l.effective[s], l.cross[s])
  }

  function NoLoads(n: nat): (l: Loads)
    ensures Sized(l, n)
  {
    Loads(seq(n, _ => 0), seq(n, _ => 0.0), seq(n, _ => 0.0))
  }

  /** The vectors hold the reference counts, and their totals are the batch's. */
  ghost predicate Tallies(l: Loads, es: seq<Ends>, n: nat) {
    && Sized(l, n)
    && (forall s: Sid :: s < n ==> LoadAt(l, s) == LoadOf(es, s))
    && SumNat(l.stage) == |es| + Count(es, Crossing)
    && SumReal(l.effective) == |es| as real && SumReal(l.cross) == Count(es, Crossing) as real
  }

  /** Adds one transaction to the vectors, as the loop body does. */
  function AddEnds(l: Loads, e: Ends): (l': Loads)
    requires exists n :: Sized(l, n) && e.from < n && e.to < n
  {
    var stage := Bump(l.stage, e.from);
    if e.from == e.to then Loads(stage, Raise(l.effective, e.from, 1.0), l.cross)
    else
      Loads(Bump(stage, e.to), Raise(Raise(l.effective, e.from, 0.5), e.to, 0.5),
            Raise(Raise(l.cross, e.from, 0.5), e.to, 0.5))
  }

  lemma TotalsStep(l: Loads, n: nat, e: Ends)
    requires Sized(l, n) && e.from < n && e.to < n
    ensures var (l', x) := (AddEnds(l, e), if Crosses(e) then 1 else 0);
            && SumNat(l'.stage) == SumNat(l.stage) + 1 + x
            && SumReal(l'.effective) == SumReal(l.effective) + 1.0 && SumReal(l'.cross) == SumReal(l.cross) + x as real
  {
    SumBump(l.stage, e.from);
    if e.from == e.to {
      SumRaise(l.effective, e.from, 1.0);
    } else {
      SumBump(Bump(l.stage, e.from), e.to);
      SumHalves(l.effective, e.from, e.to);
      SumHalves(l.cross, e.from, e.to);
    }
  }

  lemma ShardStep(l: Loads, n: nat, es: seq<Ends>, e: Ends, s: Sid)
    requires Sized(l, n) && e.from < n && e.to < n && s < n
    requires LoadAt(l, s) == LoadOf(es, s)
    ensures Sized(AddEnds(l, e), n)
    ensures LoadAt(AddEnds(l, e), s) == LoadOf(es + [e], s)
  {
    LoadStep(es, e, s);
  }

  lemma TalliesStep(l: Loads, n: nat, es: seq<Ends>, e: Ends)
    requires Tallies(l, es, n) && e.from < n && e.to < n
    ensures Tallies(AddEnds(l, e), es + [e], n)
  {
    TotalsStep(l, n, e);
    CountStep(es, e, Crossing);
    forall s: Sid | s < n
      ensures Sized(AddEnds(l, e), n)
      ensures LoadAt(AddEnds(l, e), s) == LoadOf(es + [e], s)
    {
      ShardStep(l, n, es, e, s);
    }
    assert Sized(AddEnds(l, e), n);
  }

  lemma TalliesNothing(n: nat)
    ensures Tallies(NoLoads(n), [], n)
  {
    SumZeros(n);
  }
}
