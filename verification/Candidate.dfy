/** Which shards a new address may be placed on: the load guard, the top-k cut and the best candidate.

    Scores and pressures are exact reals. The reference definitions below never sort: a shard survives
    the cut when fewer than k admissible shards outrank it. */
module Candidate {
  import opened Common

  type Sid = nat

  function SumNat(xs: seq<nat>): nat {
    if xs == [] then 0 else SumNat(xs[..|xs| - 1]) + xs[|xs| - 1]
  }

  function SumReal(xs: seq<real>): real {
    if xs == [] then 0.0 else SumReal(xs[..|xs| - 1]) + xs[|xs| - 1]
  }

  function Times(x: real, y: real): real {
    x * y
  }

  // ----- The reference: guard, rank, cut -----

  function Threshold(pressures: seq<real>, factor: real): real
    requires |pressures| > 0
  {
    Times(SumReal(pressures) / |pressures| as real, if factor < 1.0 then 1.0 else factor)
  }

  function UnderThreshold(pressures: seq<real>, factor: real): set<Sid>
    requires |pressures| > 0
  {
    AtMost(pressures, Threshold(pressures, factor))
  }

  function AtMost(xs: seq<real>, t: real): (S: set<Sid>)
    ensures forall s: Sid :: s in S <==> s < |xs| && xs[s] <= t
  {
    set s | s in Below(|xs|) && xs[s] <= t
  }

  /** Shards the load guard admits; the guard only acts above a near-zero mean. */
  function GuardSet(pressures: seq<real>, on: bool, factor: real, cut: real): set<Sid> {
    var n := |pressures|;
    if !on || n == 0 || SumReal(pressures) / n as real <= cut || UnderThreshold(pressures, factor) == {} then Below(n)
    else UnderThreshold(pressures, factor)
  }

  /** Higher score first; equal scores by shard number. */
  predicate Outranks(scores: seq<real>, a: Sid, b: Sid)
    requires a < |scores| && b < |scores|
  {
    scores[a] > scores[b] || (scores[a] == scores[b] && a < b)
  }

  ghost function Betters(S: set<Sid>, scores: seq<real>, a: Sid): set<Sid>
    requires S <= Below(|scores|) && a < |scores|
  {
    set b | b in S && Outranks(scores, b, a)
  }

  ghost function TopSet(S: set<Sid>, scores: seq<real>, k: nat): set<Sid>
    requires S <= Below(|scores|)
  {
    set a | a in S && |Betters(S, scores, a)| < k
  }

  ghost function Candidates(S: set<Sid>, scores: seq<real>, topK: int): set<Sid>
    requires S <= Below(|scores|)
  {
    if 0 < topK < |scores| then TopSet(S, scores, topK) else S
  }

  /** The 0/1 vector of a set of shards. */
  ghost predicate IsMask(m: seq<int>, n: nat, S: set<Sid>) {
    |m| == n && forall s :: 0 <= s < n ==> m[s] == if s in S then 1 else 0
  }

  // ----- A ranking lists shards by rank -----

  ghost predicate Lists(xs: seq<Sid>, S: set<Sid>) {
    Distinct(xs) && forall x :: x in xs <==> x in S
  }

  ghost predicate IsRanking(out: seq<Sid>, S: set<Sid>, scores: seq<real>) {
    && S <= Below(|scores|) && Lists(out, S)
    && (forall i :: 0 <= i < |out| ==> out[i] < |scores|)
    && (forall i, j :: 0 <= i < j < |out| ==> Outranks(scores, out[i], out[j]))
  }

  lemma {:induction false} DistinctSize(xs: seq<Sid>, S: set<Sid>)
    requires Lists(xs, S)
    ensures |S| == |xs|
  {
    if xs == [] {
      assert S == {};
    } else {
      var init, x := xs[..|xs| - 1], xs[|xs| - 1];
      assert xs == init + [x];
      assert forall y :: y in init <==> y in S - {x};
      DistinctSize(init, S - {x});
    }
  }

  /** Position equals rank. */
  lemma RankIsPosition(out: seq<Sid>, S: set<Sid>, scores: seq<real>, i: nat)
    requires IsRanking(out, S, scores) && i < |out|
    ensures |Betters(S, scores, out[i])| == i
  {
    var B := Betters(S, scores, out[i]);
    forall b
      ensures b in out[..i] <==> b in B
    {
      if b in B {
        var j :| 0 <= j < |out| && out[j] == b;
        assert j < i;
        assert out[..i][j] == b;
      }
      if b in out[..i] {
        var j :| 0 <= j < i && out[j] == b;
        assert b in out;
      }
    }
    DistinctSize(out[..i], B);
  }

  /** The first k of any ranking are the shards with rank below k. */
  lemma FirstKAreTop(out: seq<Sid>, S: set<Sid>, scores: seq<real>, k: nat)
    requires IsRanking(out, S, scores) && k <= |out|
    ensures forall a :: a in out[..k] <==> a in TopSet(S, scores, k)
    ensures |TopSet(S, scores, k)| == k
  {
    forall a
      ensures a in out[..k] <==> a in TopSet(S, scores, k)
    {
      if a in out[..k] {
        var i :| 0 <= i < k && out[i] == a;
        RankIsPosition(out, S, scores, i);
        assert out[i] in out;
      }
      if a in TopSet(S, scores, k) {
        assert a in out;
        var i :| 0 <= i < |out| && out[i] == a;
        RankIsPosition(out, S, scores, i);
        assert out[..k][i] == a;
      }
    }
    DistinctSize(out[..k], TopSet(S, scores, k));
  }

  lemma InsertRanks(out: seq<Sid>, x: Sid, S: set<Sid>, scores: seq<real>, i: nat)
    requires IsRanking(out, S, scores) && x !in S && x < |scores| && i <= |out|
    requires forall j :: i <= j < |out| ==> Outranks(scores, x, out[j])
    requires i > 0 ==> !Outranks(scores, x, out[i - 1])
    ensures var out' := out[..i] + [x] + out[i..];
            && (forall j :: 0 <= j < |out'| ==> out'[j] < |scores|)
            && (forall j, k :: 0 <= j < k < |out'| ==> Outranks(scores, out'[j], out'[k]))
  {
    forall j | 0 <= j < i
      ensures Outranks(scores, out[j], x)
    {
      assert out[i - 1] in out && out[i - 1] != x;
      assert Outranks(scores, out[i - 1], x);
      assert j < i - 1 ==> Outranks(scores, out[j], out[i - 1]);
    }
  }

  lemma InsertLists(out: seq<Sid>, x: Sid, S: set<Sid>, i: nat)
    requires Lists(out, S) && x !in S && i <= |out|
    ensures Lists(out[..i] + [x] + out[i..], S + {x})
  {
    var out' := out[..i] + [x] + out[i..];
    assert forall j :: 0 <= j < |out| ==> out[j] in out;
    forall y
      ensures y in out' <==> y in S + {x}
    {
      if y in S {
        var j :| 0 <= j < |out| && out[j] == y;
        assert out'[if j < i then j else j + 1] == y;
      }
      assert out'[i] == x;
    }
  }

  // ----- What the cut keeps -----

  function Elems(xs: seq<Sid>): set<Sid> {
    set x | x in xs
  }

  /** A ranking of any set of shards exists. */
  lemma {:induction false} RankingExists(S: set<Sid>, scores: seq<real>) returns (out: seq<Sid>)
    requires S <= Below(|scores|)
    ensures IsRanking(out, S, scores)
    decreases |S|
  {
    if S == {} {
      out := [];
    } else {
      var x := BestOf(S, scores);
      var rest := RankingExists(S - {x}, scores);
      assert forall j :: 0 <= j < |rest| ==> rest[j] in rest;
      InsertLists(rest, x, S - {x}, 0);
      InsertRanks(rest, x, S - {x}, scores, 0);
      out := rest[..0] + [x] + rest[0..];
      assert S == (S - {x}) + {x};
    }
  }

  lemma {:induction false} BestOf(S: set<Sid>, scores: seq<real>) returns (x: Sid)
    requires S != {} && S <= Below(|scores|)
    ensures x in S && forall y :: y in S && y != x ==> Outranks(scores, x, y)
    decreases |S|
  {
    x :| x in S;
    if S != {x} {
      var y := BestOf(S - {x}, scores);
      assert S == (S - {x}) + {x};
      if !Outranks(scores, x, y) {
        x := y;
      }
    }
  }

  /** For every k >= 1: exactly min(k, admitted) shards survive, no dropped one outranks a survivor, and
      the best admitted shard is among the survivors. */
  lemma TopKFaithful(S: set<Sid>, scores: seq<real>, k: int)
    requires S <= Below(|scores|) && S != {} && k >= 1
    ensures var C := Candidates(S, scores, k);
            && C <= S && |C| == (if k < |S| then k else |S|)
            && (forall a, b :: a in C && b in S && b !in C ==> Outranks(scores, a, b))
            && (forall a :: a in S && Betters(S, scores, a) == {} ==> a in C)
  {
    var n := |scores|;
    SubsetSize(S, Below(n));
    var out := RankingExists(S, scores);
    DistinctSize(out, S);
    var m := if k < |S| then k else |S|;
    FirstKAreTop(out, S, scores, m);
    CutAtSize(S, scores, k, out);
    forall a, b | a in TopSet(S, scores, m) && b in S && b !in TopSet(S, scores, m)
      ensures Outranks(scores, a, b)
    {
      assert a in out[..m] && b in out && b !in out[..m];
      var i :| 0 <= i < m && out[i] == a;
      var j :| 0 <= j < |out| && out[j] == b;
      assert forall q :: 0 <= q < m ==> out[..m][q] == out[q];
      assert j >= m;
    }
  }

  lemma CutAtSize(S: set<Sid>, scores: seq<real>, k: int, out: seq<Sid>)
    requires IsRanking(out, S, scores) && k >= 1 && |S| == |out| <= |scores|
    ensures Candidates(S, scores, k) == TopSet(S, scores, if k < |S| then k else |S|)
  {
    FirstKAreTop(out, S, scores, |out|);
    assert out[..|out|] == out;
    assert TopSet(S, scores, |S|) == S;
    if |S| <= k < |scores| {
      assert forall a :: a in S ==> a in TopSet(S, scores, |S|);
      assert TopSet(S, scores, k) == S;
    }
  }

  // ----- The guard never shuts every shard out -----

  lemma {:induction false} SumAbove(xs: seq<real>, t: real)
    requires |xs| > 0 && forall i :: 0 <= i < |xs| ==> xs[i] > t
    ensures SumReal(xs) > |xs| as real * t
  {
    var init := xs[..|xs| - 1];
    if init != [] {
      SumAbove(init, t);
      assert |xs| as real * t == |init| as real * t + t;
    } else {
      assert SumReal(init) == 0.0;
      assert |xs| as real * t == t;
    }
  }

  lemma {:induction false} SumNonNegative(xs: seq<real>)
    requires forall i :: 0 <= i < |xs| ==> xs[i] >= 0.0
    ensures SumReal(xs) >= 0.0
  {
    if xs != [] {
      SumNonNegative(xs[..|xs| - 1]);
    }
  }

  /** Some shard carries at most the mean, and the threshold is never below the mean. */
  lemma GuardAdmitsSome(pressures: seq<real>, factor: real)
    requires |pressures| > 0 && forall i :: 0 <= i < |pressures| ==> pressures[i] >= 0.0
    ensures UnderThreshold(pressures, factor) != {}
  {
    ThresholdAboveMean(pressures, factor);
    var i := SomeAtMost(pressures, Threshold(pressures, factor));
    assert i in UnderThreshold(pressures, factor);
  }

  lemma SomeAtMost(xs: seq<real>, t: real) returns (i: nat)
    requires |xs| > 0 && |xs| as real * t >= SumReal(xs)
    ensures i < |xs| && xs[i] <= t
  {
    if forall j :: 0 <= j < |xs| ==> xs[j] > t {
      SumAbove(xs, t);
    }
    i :| 0 <= i < |xs| && xs[i] <= t;
  }

  lemma ThresholdAboveMean(pressures: seq<real>, factor: real)
    requires |pressures| > 0 && forall i :: 0 <= i < |pressures| ==> pressures[i] >= 0.0
    ensures |pressures| as real * Threshold(pressures, factor) >= SumReal(pressures)
  {
    var n, mean := |pressures| as real, SumReal(pressures) / |pressures| as real;
    var f := if factor < 1.0 then 1.0 else factor;
    SumNonNegative(pressures);
    Quotient(SumReal(pressures), n);
    ScaledUp(mean, f);
    Monotone(n, mean, mean * f);
  }

  lemma Quotient(x: real, n: real)
    requires n > 0.0
    ensures n * (x / n) == x && (x >= 0.0 ==> x / n >= 0.0)
  {
  }

  lemma ScaledUp(x: real, f: real)
    requires x >= 0.0 && f >= 1.0
    ensures x * f >= x
  {
  }

  lemma Monotone(n: real, a: real, b: real)
    requires n >= 0.0 && a <= b
    ensures n * a <= n * b
  {
  }

  lemma GuardSetNotEmpty(pressures: seq<real>, on: bool, factor: real, cut: real)
    requires |pressures| > 0
    ensures GuardSet(pressures, on, factor, cut) != {}
  {
    assert 0 in Below(|pressures|);
  }

  // ----- The best candidate -----

  /** The lowest-numbered shard with the highest score. */
  ghost predicate IsBest(S: set<Sid>, scores: seq<real>, x: Sid)
    requires S <= Below(|scores|)
  {
    x in S && forall y :: y in S && y != x ==> Outranks(scores, x, y)
  }

  /** The best survivor is the best of all admitted shards, whatever k is. */
  lemma BestIgnoresCut(S: set<Sid>, scores: seq<real>, k: int, x: Sid)
    requires S <= Below(|scores|) && S != {} && k >= 1
    ensures Candidates(S, scores, k) <= S
    ensures IsBest(Candidates(S, scores, k), scores, x) <==> IsBest(S, scores, x)
  {
    TopKFaithful(S, scores, k);
    if IsBest(S, scores, x) {
      assert Betters(S, scores, x) == {};
    }
  }
}
