/** What the load guard admits, what the pressures add up to, and what separates two scores. */
module CandidateLaws {
  import opened Common
  import opened Candidate
  import opened CandidateTwins

  // ----- The guard -----

  lemma ScaledQuotient(x: real, sum: real, n: real, f: real)
    requires n > 0.0
    ensures x <= Times(sum / n, f) <==> Times(x, n) <= Times(sum, f)
  {
    var q := sum / n;
    assert q * n == sum;
    assert Times(sum, f) == Times(Times(q, f), n);
    SameOrder(x, Times(q, f), n);
  }

  lemma SameOrder(a: real, b: real, n: real)
    requires n > 0.0
    ensures a <= b <==> Times(a, n) <= Times(b, n)
  {
    if a <= b {
      TimesKeeps(a, b, n);
    } else {
      TimesKeepsStrictly(b, a, n);
    }
  }

  lemma TimesKeeps(a: real, b: real, n: real)
    requires n > 0.0 && a <= b
    ensures Times(a, n) <= Times(b, n)
  {
    Monotone(n, a, b);
    assert Times(a, n) == n * a && Times(b, n) == n * b;
  }

  lemma TimesKeepsStrictly(a: real, b: real, n: real)
    requires n > 0.0 && a < b
    ensures Times(a, n) < Times(b, n)
  {
    assert Times(b, n) - Times(a, n) == (b - a) * n;
    Positive(b - a, n);
  }

  lemma Positive(x: real, y: real)
    requires x > 0.0 && y > 0.0
    ensures x * y > 0.0
  {
  }

  lemma MeanCut(sum: real, n: real, cut: real)
    requires n > 0.0
    ensures sum / n <= cut <==> sum <= Times(cut, n)
  {
    var q := sum / n;
    assert Times(q, n) == sum;
    SameOrder(q, cut, n);
  }

  lemma GuardMembers(ps: seq<real>, on: bool, factor: real, cut: real, s: Sid)
    requires |ps| > 0 && s < |ps| && UnderThreshold(ps, factor) != {}
    ensures s in GuardSet(ps, on, factor, cut) <==>
            !on || SumReal(ps) / |ps| as real <= cut || ps[s] <= Threshold(ps, factor)
  {
  }

  /** With pressures that are not negative: a guard that is on and sees more than a near-zero mean admits exactly
      the shards whose pressure, times the number of shards, is at most the factor (one at least) times the
      total; otherwise it admits all. */
  lemma AdmittedExactly(ps: seq<real>, on: bool, factor: real, cut: real, s: Sid)
    requires |ps| > 0 && s < |ps| && forall i :: 0 <= i < |ps| ==> ps[i] >= 0.0
    ensures var (n, f) := (|ps| as real, if factor < 1.0 then 1.0 else factor);
            s in GuardSet(ps, on, factor, cut) <==>
            !on || SumReal(ps) <= Times(cut, n) || Times(ps[s], n) <= Times(SumReal(ps), f)
  {
    GuardAdmitsSome(ps, factor);
    GuardMembers(ps, on, factor, cut, s);
    ScaledQuotient(ps[s], SumReal(ps), |ps| as real, if factor < 1.0 then 1.0 else factor);
    MeanCut(SumReal(ps), |ps| as real, cut);
  }

  // ----- Pressures -----

  lemma {:induction false} PressureSums(c: Config, inp: Input, h: History, k: nat)
    requires k <= |inp.shardLoad| && SumNat(inp.shardLoad) > 0
    ensures SumReal(GoPressures(c, inp, h)[..k]) ==
            Share(SumNat(inp.shardLoad[..k]), SumNat(inp.shardLoad), GoScale(c.maxBlock))
            + RecentTotal(h, k) as real / 5.0
  {
    var ps, load := GoPressures(c, inp, h), inp.shardLoad;
    if k > 0 {
      PressureSums(c, inp, h, k - 1);
      assert ps[..k][..k - 1] == ps[..k - 1] && load[..k][..k - 1] == load[..k - 1];
      ShareAdds(SumNat(load[..k - 1]), load[k - 1], SumNat(load), GoScale(c.maxBlock));
      PressureParts(c, inp, h, k - 1);
    } else {
      NoShare(SumNat(load), GoScale(c.maxBlock));
    }
  }

  lemma PressureParts(c: Config, inp: Input, h: History, s: Sid)
    requires s < |inp.shardLoad| && SumNat(inp.shardLoad) > 0
    ensures GoPressure(c, inp, h, s) ==
            Share(inp.shardLoad[s], SumNat(inp.shardLoad), GoScale(c.maxBlock)) + RecentSum(h, s, WINDOWS) as real / 5.0
  {
  }

  lemma NoShare(total: nat, scale: real)
    requires total > 0
    ensures Share(0, total, scale) == 0.0
  {
    assert 0.0 / total as real == 0.0;
  }

  /** All pressures together are the block size, shared out by placements once there are any, and a fifth of the
      stages of the last five windows. */
  lemma PressuresAddUp(c: Config, inp: Input, h: History)
    ensures SumReal(GoPressures(c, inp, h)) ==
            (if SumNat(inp.shardLoad) == 0 then 0.0 else if c.maxBlock <= 0 then 1.0 else c.maxBlock as real)
            + RecentTotal(h, |inp.shardLoad|) as real / 5.0
  {
    var n, ps := |inp.shardLoad|, GoPressures(c, inp, h);
    assert ps[..n] == ps && inp.shardLoad[..n] == inp.shardLoad;
    if SumNat(inp.shardLoad) > 0 {
      PressureSums(c, inp, h, n);
      ShareOfAll(SumNat(inp.shardLoad), GoScale(c.maxBlock));
    } else {
      UnplacedSum(c, inp, h, n);
    }
  }

  /** Two shards with the same recent stages differ in pressure by their placements: whoever holds more is
      pressed more. */
  lemma MorePlacedIsMorePressed(c: Config, inp: Input, h: History, s: Sid, t: Sid)
    requires s < |inp.shardLoad| && t < |inp.shardLoad| && SumNat(inp.shardLoad) > 0
    requires RecentSum(h, s, WINDOWS) == RecentSum(h, t, WINDOWS)
    ensures inp.shardLoad[s] > inp.shardLoad[t] ==> GoPressure(c, inp, h, s) > GoPressure(c, inp, h, t)
  {
    var load, total := inp.shardLoad, SumNat(inp.shardLoad);
    if load[s] > load[t] {
      ShareAdds(load[t], load[s] - load[t], total, GoScale(c.maxBlock));
      SharePositive(load[s] - load[t], total, GoScale(c.maxBlock));
    }
  }

  lemma SharePositive(load: nat, total: nat, scale: real)
    requires load > 0 && total > 0 && scale > 0.0
    ensures Share(load, total, scale) > 0.0
  {
    var q := load as real / total as real;
    assert q * total as real == load as real;
    assert q > 0.0;
  }

  // ----- Scores -----

  /** Affinity counts a thousandfold, pressure at the load weight if that is not negative, and the hash shard has
      an advantage of one thousandth: so it wins every tie of the other two. */
  lemma ScoresDiffer(c: Config, inp: Input, ps: seq<real>, s: Sid, t: Sid)
    requires s < |ps| && t < |ps|
    ensures var (scores, w) := (GoScores(c, inp, ps), if c.loadWeight < 0.0 then 0.0 else c.loadWeight);
            scores[s] - scores[t] ==
            1000.0 * (Affinity(inp, s) - Affinity(inp, t)) - w * (ps[s] - ps[t])
            + (if s == inp.hashSid then 0.001 else 0.0) - (if t == inp.hashSid then 0.001 else 0.0)
    ensures s == inp.hashSid && t != s && Affinity(inp, s) == Affinity(inp, t) && ps[s] == ps[t] ==>
              Outranks(GoScores(c, inp, ps), s, t)
  {
    var w := if c.loadWeight < 0.0 then 0.0 else c.loadWeight;
    assert w * (ps[s] - ps[t]) == Times(w, ps[s]) - Times(w, ps[t]);
  }
}
