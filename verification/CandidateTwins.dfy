/** The two candidate-mask builders, one per language, and why they agree. */
module CandidateTwins {
  import opened Common
  import opened Candidate

  datatype Config = Config(topK: int, guard: int, factor: real, loadWeight: real, maxBlock: int)

  /** What both sides know of the network: placements per shard and the affinity of the new address. */
  datatype Input = Input(shardLoad: seq<nat>, senderPos: seq<real>, hashSid: Sid)

  /** A missing entry of the affinity vector reads as zero. */
  function Affinity(inp: Input, sid: Sid): real {
    if sid < |inp.senderPos| then inp.senderPos[sid] else 0.0
  }

  const GO_CUT := 0.000000001
  const PY_CUT := 0.00000001
  const WINDOWS := 5
  const SHARD_LIMIT := 20_000_000

  // ----- The online side: per-shard block history, newest last -----

  type History = seq<seq<nat>>

  function StatAt(h: History, sid: Sid, back: nat): nat {
    if sid < |h| && back < |h[sid]| then h[sid][|h[sid]| - 1 - back] else 0
  }

  function RecentSum(h: History, sid: Sid, n: nat): nat {
    if n == 0 then 0 else RecentSum(h, sid, n - 1) + StatAt(h, sid, n - 1)
  }

  function GoScale(maxBlock: int): real {
    if maxBlock <= 0 then 1.0 else maxBlock as real
  }

  function GoPressure(c: Config, inp: Input, h: History, sid: Sid): real
    requires sid < |inp.shardLoad|
  {
    var total := SumNat(inp.shardLoad);
    (if total > 0 then inp.shardLoad[sid] as real / total as real * GoScale(c.maxBlock) else 0.0)
    + RecentSum(h, sid, WINDOWS) as real / 5.0
  }

  function GoPressures(c: Config, inp: Input, h: History): (ps: seq<real>)
    ensures |ps| == |inp.shardLoad| && forall s :: 0 <= s < |ps| ==> ps[s] == GoPressure(c, inp, h, s)
  {
    seq(|inp.shardLoad|, s requires 0 <= s < |inp.shardLoad| => GoPressure(c, inp, h, s))
  }

  // ----- The offline side: the last five load vectors, oldest first -----

  type Window = seq<nat>

  function WindowSum(ws: seq<Window>, sid: Sid): nat {
    if ws == [] then 0 else
      WindowSum(ws[..|ws| - 1], sid) + (if sid < |ws[|ws| - 1]| then ws[|ws| - 1][sid] else 0)
  }

  function PyScale(maxBlock: int): real {
    (if maxBlock > 1 then maxBlock else 1) as real
  }

  function Max0(x: real): real {
    if x > 0.0 then x else 0.0
  }

  function PyPressure(c: Config, inp: Input, ws: seq<Window>, sid: Sid): real
    requires sid < |inp.shardLoad|
  {
    var total := SumNat(inp.shardLoad) as real;
    Max0((if total > PY_CUT then inp.shardLoad[sid] as real / total * PyScale(c.maxBlock) else 0.0)
         + WindowSum(ws, sid) as real / (if |ws| > 1 then |ws| else 1) as real)
  }

  function PyPressures(c: Config, inp: Input, ws: seq<Window>): (ps: seq<real>)
    ensures |ps| == |inp.shardLoad| && forall s :: 0 <= s < |ps| ==> ps[s] == PyPressure(c, inp, ws, s)
  {
    seq(|inp.shardLoad|, s requires 0 <= s < |inp.shardLoad| => PyPressure(c, inp, ws, s))
  }

  /** Both sides have seen the same five windows. */
  ghost predicate SameWindows(h: History, ws: seq<Window>, n: nat) {
    && |ws| == WINDOWS
    && (forall w :: 0 <= w < WINDOWS ==> |ws[w]| == n)
    && (forall w, s :: 0 <= w < WINDOWS && 0 <= s < n ==> ws[w][s] == StatAt(h, s, WINDOWS - 1 - w))
  }

  lemma RecentAgree(h: History, ws: seq<Window>, n: nat, sid: Sid)
    requires SameWindows(h, ws, n) && sid < n
    ensures WindowSum(ws, sid) == RecentSum(h, sid, WINDOWS)
  {
    assert ws == [ws[0], ws[1], ws[2], ws[3], ws[4]];
    assert sid < |ws[0]| && ws[0][sid] == StatAt(h, sid, 4);
    assert sid < |ws[1]| && ws[1][sid] == StatAt(h, sid, 3);
    assert sid < |ws[2]| && ws[2][sid] == StatAt(h, sid, 2);
    assert sid < |ws[3]| && ws[3][sid] == StatAt(h, sid, 1);
    assert sid < |ws[4]| && ws[4][sid] == StatAt(h, sid, 0);
    WindowSumFive(ws[0], ws[1], ws[2], ws[3], ws[4], sid);
    assert RecentSum(h, sid, 3) == StatAt(h, sid, 0) + StatAt(h, sid, 1) + StatAt(h, sid, 2) by {
      assert RecentSum(h, sid, 1) == StatAt(h, sid, 0);
      assert RecentSum(h, sid, 2) == StatAt(h, sid, 0) + StatAt(h, sid, 1);
    }
    assert RecentSum(h, sid, 4) == RecentSum(h, sid, 3) + StatAt(h, sid, 3);
  }

  lemma WindowSumFive(a: Window, b: Window, c: Window, d: Window, e: Window, sid: Sid)
    requires sid < |a| && sid < |b| && sid < |c| && sid < |d| && sid < |e|
    ensures WindowSum([a, b, c, d, e], sid) == a[sid] + b[sid] + c[sid] + d[sid] + e[sid]
  {
    assert [a, b, c, d, e][..4] == [a, b, c, d] && [a, b, c, d][..3] == [a, b, c];
    assert [a, b, c][..2] == [a, b] && [a, b][..1] == [a] && [a][..0] == [];
    assert WindowSum([a], sid) == a[sid];
    assert WindowSum([a, b], sid) == a[sid] + b[sid];
    assert WindowSum([a, b, c], sid) == a[sid] + b[sid] + c[sid];
    assert WindowSum([a, b, c, d], sid) == a[sid] + b[sid] + c[sid] + d[sid];
  }

  lemma PressuresAgree(c: Config, inp: Input, h: History, ws: seq<Window>)
    requires SameWindows(h, ws, |inp.shardLoad|)
    ensures PyPressures(c, inp, ws) == GoPressures(c, inp, h)
  {
    forall s | 0 <= s < |inp.shardLoad|
      ensures PyPressure(c, inp, ws, s) == GoPressure(c, inp, h, s)
    {
      RecentAgree(h, ws, |inp.shardLoad|, s);
      PressureNonNegative(c, inp, h, s);
    }
  }

  lemma PressureNonNegative(c: Config, inp: Input, h: History, sid: Sid)
    requires sid < |inp.shardLoad|
    ensures GoPressure(c, inp, h, sid) >= RecentSum(h, sid, WINDOWS) as real / 5.0 >= 0.0
  {
  }

  // ----- The near-zero cutoffs -----

  function Share(load: nat, total: nat, scale: real): real
    requires total > 0
  {
    load as real / total as real * scale
  }

  lemma ShareAdds(a: nat, b: nat, total: nat, scale: real)
    requires total > 0
    ensures Share(a + b, total, scale) == Share(a, total, scale) + Share(b, total, scale)
  {
    var (x, y, t) := (a as real, b as real, total as real);
    assert (x + y) / t == x / t + y / t;
  }

  lemma ShareOfAll(total: nat, scale: real)
    requires total > 0
    ensures Share(total, total, scale) == scale
  {
  }

  /** Placement pressures add up to the block-size scale. */
  lemma {:induction false} PlacedSum(c: Config, inp: Input, h: History, k: nat)
    requires k <= |inp.shardLoad| && SumNat(inp.shardLoad) > 0
    ensures SumReal(GoPressures(c, inp, h)[..k]) >=
            Share(SumNat(inp.shardLoad[..k]), SumNat(inp.shardLoad), GoScale(c.maxBlock))
  {
    if k > 0 {
      var ps, load := GoPressures(c, inp, h), inp.shardLoad;
      PlacedSum(c, inp, h, k - 1);
      assert ps[..k][..k - 1] == ps[..k - 1] && load[..k][..k - 1] == load[..k - 1];
      PressureAboveShare(c, inp, h, k - 1);
      ShareAdds(SumNat(load[..k - 1]), load[k - 1], SumNat(load), GoScale(c.maxBlock));
    }
  }

  lemma PressureAboveShare(c: Config, inp: Input, h: History, sid: Sid)
    requires sid < |inp.shardLoad| && SumNat(inp.shardLoad) > 0
    ensures GoPressure(c, inp, h, sid) >= Share(inp.shardLoad[sid], SumNat(inp.shardLoad), GoScale(c.maxBlock))
  {
    assert RecentSum(h, sid, WINDOWS) as real / 5.0 >= 0.0;
  }

  function RecentTotal(h: History, k: nat): nat {
    if k == 0 then 0 else RecentTotal(h, k - 1) + RecentSum(h, k - 1, WINDOWS)
  }

  lemma {:induction false} UnplacedSum(c: Config, inp: Input, h: History, k: nat)
    requires k <= |inp.shardLoad| && SumNat(inp.shardLoad) == 0
    ensures SumReal(GoPressures(c, inp, h)[..k]) == RecentTotal(h, k) as real / 5.0
  {
    if k > 0 {
      var ps := GoPressures(c, inp, h);
      UnplacedSum(c, inp, h, k - 1);
      assert ps[..k][..k - 1] == ps[..k - 1];
      assert ps[k - 1] == RecentSum(h, k - 1, WINDOWS) as real / 5.0;
    }
  }

  /** Counts are whole numbers, so the total pressure is zero or at least one fifth. */
  lemma TotalPressure(c: Config, inp: Input, h: History)
    ensures SumReal(GoPressures(c, inp, h)) == 0.0 || SumReal(GoPressures(c, inp, h)) >= 0.2
  {
    var n, ps := |inp.shardLoad|, GoPressures(c, inp, h);
    assert ps[..n] == ps && inp.shardLoad[..n] == inp.shardLoad;
    if SumNat(inp.shardLoad) > 0 {
      PlacedSum(c, inp, h, n);
      ShareOfAll(SumNat(inp.shardLoad), GoScale(c.maxBlock));
    } else {
      UnplacedSum(c, inp, h, n);
    }
  }

  lemma MeanAboveCuts(total: real, n: nat)
    requires 0 < n < SHARD_LIMIT && total >= 0.2
    ensures total / n as real > PY_CUT > GO_CUT
  {
    var r := n as real;
    assert r <= 19999999.0;
    assert PY_CUT * r < 0.2;
    Quotient(total, r);
    BelowQuotient(PY_CUT, total / n as real, n as real);
  }

  lemma BelowQuotient(cut: real, q: real, n: real)
    requires n > 0.0 && cut * n < n * q
    ensures cut < q
  {
  }

  lemma CutsAgree(c: Config, inp: Input, h: History, on: bool, factor: real)
    requires |inp.shardLoad| < SHARD_LIMIT
    ensures var ps := GoPressures(c, inp, h); GuardSet(ps, on, factor, GO_CUT) == GuardSet(ps, on, factor, PY_CUT)
  {
    var ps := GoPressures(c, inp, h);
    TotalPressure(c, inp, h);
    if |ps| > 0 && SumReal(ps) >= 0.2 {
      MeanAboveCuts(SumReal(ps), |ps|);
    }
  }

  // ----- Scores and candidate sets -----

  function Bonus(inp: Input, sid: Sid): real {
    if sid == inp.hashSid then 0.001 else 0.0
  }

  function GoScores(c: Config, inp: Input, ps: seq<real>): (scores: seq<real>)
    ensures |scores| == |ps|
  {
    var w := if c.loadWeight < 0.0 then 0.0 else c.loadWeight;
    seq(|ps|, s requires 0 <= s < |ps| => Affinity(inp, s) * 1000.0 - Times(w, ps[s]) + Bonus(inp, s))
  }

  function PyScores(c: Config, inp: Input, ps: seq<real>): (scores: seq<real>)
    ensures |scores| == |ps|
  {
    seq(|ps|, s requires 0 <= s < |ps| => 1000.0 * Affinity(inp, s) - Times(Max0(c.loadWeight), ps[s]) + Bonus(inp, s))
  }

  lemma ScoresAgree(c: Config, inp: Input, ps: seq<real>)
    ensures PyScores(c, inp, ps) == GoScores(c, inp, ps)
  {
    var w := if c.loadWeight < 0.0 then 0.0 else c.loadWeight;
    assert Max0(c.loadWeight) == w;
    forall s | 0 <= s < |ps|
      ensures PyScores(c, inp, ps)[s] == GoScores(c, inp, ps)[s]
    {
      assert 1000.0 * Affinity(inp, s) == Affinity(inp, s) * 1000.0;
    }
  }

  function GoGuard(c: Config, inp: Input, h: History): (S: set<Sid>)
    ensures S <= Below(|inp.shardLoad|)
  {
    GuardSet(GoPressures(c, inp, h), c.guard != 0, c.factor, GO_CUT)
  }

  function PyGuard(c: Config, inp: Input, ws: seq<Window>): (S: set<Sid>)
    ensures S <= Below(|inp.shardLoad|)
  {
    GuardSet(PyPressures(c, inp, ws), c.guard != 0, c.factor, PY_CUT)
  }

  ghost function GoCandidates(c: Config, inp: Input, h: History): set<Sid>
  {
    Candidates(GoGuard(c, inp, h), GoScores(c, inp, GoPressures(c, inp, h)), c.topK)
  }

  ghost function PyCandidates(c: Config, inp: Input, ws: seq<Window>): set<Sid>
  {
    Candidates(PyGuard(c, inp, ws), PyScores(c, inp, PyPressures(c, inp, ws)), c.topK)
  }

  // ----- The two sort orders -----

  predicate GoLess(scores: seq<real>, left: Sid, right: Sid)
    requires left < |scores| && right < |scores|
  {
    if scores[left] == scores[right] then left < right else scores[left] > scores[right]
  }

  ghost predicate GoSorted(out: seq<Sid>, scores: seq<real>) {
    && (forall i :: 0 <= i < |out| ==> out[i] < |scores|)
    && (forall i, j :: 0 <= i < j < |out| ==> !GoLess(scores, out[j], out[i]))
  }

  /** The key (score, -shard), compared lexicographically. */
  predicate PyKeyLess(scores: seq<real>, a: Sid, b: Sid)
    requires a < |scores| && b < |scores|
  {
    scores[a] < scores[b] || (scores[a] == scores[b] && -(a as int) < -(b as int))
  }

  /** Keys never increase: the list is sorted in reverse. */
  ghost predicate PySorted(out: seq<Sid>, scores: seq<real>) {
    && (forall i :: 0 <= i < |out| ==> out[i] < |scores|)
    && (forall i, j :: 0 <= i < j < |out| ==> !PyKeyLess(scores, out[i], out[j]))
  }

  /** On a list without repetition, either sort order is the ranking. */
  lemma SortOrdersAgree(out: seq<Sid>, S: set<Sid>, scores: seq<real>)
    requires S <= Below(|scores|) && Lists(out, S)
    ensures GoSorted(out, scores) <==> IsRanking(out, S, scores)
    ensures PySorted(out, scores) <==> IsRanking(out, S, scores)
  {
  }

  // ----- What each builder returns, whatever its sort does with the list it is given -----

  ghost predicate Marks(mask: seq<int>, n: nat, keep: seq<Sid>) {
    |mask| == n && forall s :: 0 <= s < n ==> mask[s] == if s in keep then 1 else 0
  }

  function FirstOf(sorted: seq<Sid>, k: nat): seq<Sid> {
    sorted[..if |sorted| < k then |sorted| else k]
  }

  /** Some rearrangement of the admitted shards that the online comparison calls sorted, cut after k. */
  ghost predicate GoCut(mask: seq<int>, S: set<Sid>, scores: seq<real>, k: nat) {
    exists out :: Lists(out, S) && GoSorted(out, scores) && Marks(mask, |scores|, FirstOf(out, k))
  }

  ghost predicate PyCut(mask: seq<int>, S: set<Sid>, scores: seq<real>, k: nat) {
    exists out :: Lists(out, S) && PySorted(out, scores) && Marks(mask, |scores|, FirstOf(out, k))
  }

  ghost predicate GoBuilt(c: Config, inp: Input, h: History, mask: seq<int>) {
    var (S, scores) := (GoGuard(c, inp, h), GoScores(c, inp, GoPressures(c, inp, h)));
    if 0 < c.topK < |scores| then GoCut(mask, S, scores, c.topK) else IsMask(mask, |scores|, S)
  }

  ghost predicate PyBuilt(c: Config, inp: Input, ws: seq<Window>, mask: seq<int>) {
    var (S, scores) := (PyGuard(c, inp, ws), PyScores(c, inp, PyPressures(c, inp, ws)));
    if 0 < c.topK < |scores| then PyCut(mask, S, scores, c.topK) else IsMask(mask, |scores|, S)
  }

  /** The first k of any ranking are the candidates, so a cut leaves no choice. */
  lemma RankedCut(out: seq<Sid>, S: set<Sid>, scores: seq<real>, k: nat, mask: seq<int>)
    requires IsRanking(out, S, scores) && 0 < k < |scores| && Marks(mask, |scores|, FirstOf(out, k))
    ensures IsMask(mask, |scores|, Candidates(S, scores, k))
  {
    DistinctSize(out, S);
    SubsetSize(S, Below(|scores|));
    CutAtSize(S, scores, k, out);
    FirstKAreTop(out, S, scores, if |out| < k then |out| else k);
  }

  lemma GoCutIsTop(mask: seq<int>, S: set<Sid>, scores: seq<real>, k: nat)
    requires S <= Below(|scores|) && 0 < k < |scores| && GoCut(mask, S, scores, k)
    ensures IsMask(mask, |scores|, Candidates(S, scores, k))
  {
    var out :| Lists(out, S) && GoSorted(out, scores) && Marks(mask, |scores|, FirstOf(out, k));
    SortOrdersAgree(out, S, scores);
    RankedCut(out, S, scores, k, mask);
  }

  lemma PyCutIsTop(mask: seq<int>, S: set<Sid>, scores: seq<real>, k: nat)
    requires S <= Below(|scores|) && 0 < k < |scores| && PyCut(mask, S, scores, k)
    ensures IsMask(mask, |scores|, Candidates(S, scores, k))
  {
    var out :| Lists(out, S) && PySorted(out, scores) && Marks(mask, |scores|, FirstOf(out, k));
    SortOrdersAgree(out, S, scores);
    RankedCut(out, S, scores, k, mask);
  }

  lemma BuiltIsReference(c: Config, inp: Input, h: History, ws: seq<Window>, mask: seq<int>)
    ensures GoBuilt(c, inp, h, mask) ==> IsMask(mask, |inp.shardLoad|, GoCandidates(c, inp, h))
    ensures PyBuilt(c, inp, ws, mask) ==> IsMask(mask, |inp.shardLoad|, PyCandidates(c, inp, ws))
  {
    if 0 < c.topK < |inp.shardLoad| {
      if GoBuilt(c, inp, h, mask) {
        GoCutIsTop(mask, GoGuard(c, inp, h), GoScores(c, inp, GoPressures(c, inp, h)), c.topK);
      }
      if PyBuilt(c, inp, ws, mask) {
        PyCutIsTop(mask, PyGuard(c, inp, ws), PyScores(c, inp, PyPressures(c, inp, ws)), c.topK);
      }
    }
  }

  /** For equal inputs, whatever mask the online builder returns and whatever mask the offline builder
      returns are the same: pressures, cutoffs, scores and sort orders all agree. */
  lemma TwinMasksEqual(c: Config, inp: Input, h: History, ws: seq<Window>, goMask: seq<int>, pyMask: seq<int>)
    requires SameWindows(h, ws, |inp.shardLoad|) && |inp.shardLoad| < SHARD_LIMIT
    ensures GoBuilt(c, inp, h, goMask) && PyBuilt(c, inp, ws, pyMask) ==> goMask == pyMask
  {
    BuiltIsReference(c, inp, h, ws, goMask);
    BuiltIsReference(c, inp, h, ws, pyMask);
    PressuresAgree(c, inp, h, ws);
    ScoresAgree(c, inp, GoPressures(c, inp, h));
    CutsAgree(c, inp, h, c.guard != 0, c.factor);
  }
}
