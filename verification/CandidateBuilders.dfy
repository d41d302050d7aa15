/** The candidate builders as they run: loops over shard vectors, and a sort.

    Of its sort, each builder uses only that the result is a rearrangement its own comparison calls sorted. */
module CandidateBuilders {
  import opened Common
  import opened Candidate
  import opened CandidateTwins

  // ----- Sorting -----

  /** The shards sorted by the online comparison. */
  method GoSort(xs: seq<Sid>, scores: seq<real>) returns (out: seq<Sid>)
    requires Distinct(xs) && forall i :: 0 <= i < |xs| ==> xs[i] < |scores|
    ensures Lists(out, Elems(xs)) && GoSorted(out, scores)
  {
    out := [];
    for k := 0 to |xs|
      invariant Lists(out, Elems(xs[..k])) && GoSorted(out, scores)
    {
      var x, i := xs[k], |out|;
      while i > 0 && GoLess(scores, x, out[i - 1])
        invariant 0 <= i <= |out| && forall j :: i <= j < |out| ==> GoLess(scores, x, out[j])
      {
        i := i - 1;
      }
      OneMoreElem(xs, k);
      InsertLists(out, x, Elems(xs[..k]), i);
      out := out[..i] + [x] + out[i..];
    }
    assert xs[..|xs|] == xs;
  }

  /** The shards sorted by key, in reverse. */
  method PySort(xs: seq<Sid>, scores: seq<real>) returns (out: seq<Sid>)
    requires Distinct(xs) && forall i :: 0 <= i < |xs| ==> xs[i] < |scores|
    ensures Lists(out, Elems(xs)) && PySorted(out, scores)
  {
    out := [];
    for k := 0 to |xs|
      invariant Lists(out, Elems(xs[..k])) && PySorted(out, scores)
    {
      var x, i := xs[k], |out|;
      while i > 0 && PyKeyLess(scores, out[i - 1], x)
        invariant 0 <= i <= |out| && forall j :: i <= j < |out| ==> PyKeyLess(scores, out[j], x)
      {
        i := i - 1;
      }
      OneMoreElem(xs, k);
      InsertLists(out, x, Elems(xs[..k]), i);
      out := out[..i] + [x] + out[i..];
    }
    assert xs[..|xs|] == xs;
  }

  lemma OneMoreElem(xs: seq<Sid>, k: nat)
    requires Distinct(xs) && k < |xs|
    ensures Elems(xs[..k + 1]) == Elems(xs[..k]) + {xs[k]} && xs[k] !in Elems(xs[..k])
  {
    assert xs[..k + 1] == xs[..k] + [xs[k]];
  }

  // ----- Masks -----

  /** The shards a mask marks, when a missing entry reads as pad. */
  function Positive(mask: seq<int>, n: nat, pad: int): (S: set<Sid>)
    ensures forall s: Sid :: s in S <==> s < n && (if s < |mask| then mask[s] else pad) > 0
  {
    set s | s in Below(n) && (if s < |mask| then mask[s] else pad) > 0
  }

  /** A mask that marks nothing stands for all shards. */
  function NormalSet(mask: seq<int>, n: nat, pad: int): (S: set<Sid>)
    ensures S <= Below(n) && (n > 0 ==> S != {})
  {
    if Positive(mask, n, pad) == {} then
      assert n > 0 ==> 0 in Below(n);
      Below(n)
    else Positive(mask, n, pad)
  }

  function AtLeast0(n: int): nat {
    if n < 0 then 0 else n
  }

  function Given(mask: Option<seq<int>>): seq<int> {
    if mask.None? then [] else mask.value
  }

  method Normalize(mask: seq<int>, n: nat, pad: int) returns (normalized: seq<int>)
    ensures IsMask(normalized, n, NormalSet(mask, n, pad))
  {
    normalized := [];
    var any := false;
    for s := 0 to n
      invariant |normalized| == s
      invariant forall i :: 0 <= i < s ==> normalized[i] == if i in Positive(mask, n, pad) then 1 else 0
      invariant !any ==> forall i :: 0 <= i < s ==> i !in Positive(mask, n, pad)
      invariant any ==> Positive(mask, n, pad) != {}
    {
      if (if s < |mask| then mask[s] else pad) > 0 {
        assert s in Positive(mask, n, pad);
        normalized, any := normalized + [1], true;
      } else {
        normalized := normalized + [0];
      }
    }
    if !any {
      normalized := seq(n, _ => 1);
    }
  }

  /** Online, a missing entry is not allowed. */
  method SpringNormalizeActionMask(mask: seq<int>, n: int) returns (normalized: seq<int>)
    ensures IsMask(normalized, AtLeast0(n), NormalSet(mask, AtLeast0(n), 0))
  {
    normalized := Normalize(mask, AtLeast0(n), 0);
  }

  /** Offline, a missing entry is allowed, and so is everything when there is no mask. */
  method NormalizeActionMask(mask: Option<seq<int>>, n: int) returns (normalized: seq<int>)
    ensures IsMask(normalized, AtLeast0(n), NormalSet(Given(mask), AtLeast0(n), 1))
  {
    normalized := Normalize(Given(mask), AtLeast0(n), 1);
  }

  /** The two normalizations agree on a mask exactly when it is empty or long enough. */
  lemma NormalizationsAgreeExactly(mask: seq<int>, n: nat)
    ensures NormalSet(mask, n, 0) == NormalSet(mask, n, 1) <==> mask == [] || |mask| >= n
  {
    var go, py := Positive(mask, n, 0), Positive(mask, n, 1);
    if |mask| >= n {
      assert go == py;
    } else {
      assert |mask| in py && |mask| !in go;
      if mask == [] {
        assert go == {} && py == Below(n);
      } else if go == {} {
        assert 0 in Below(n) && 0 !in py;
      }
    }
  }

  method SpringActionAllowed(mask: seq<int>, sid: nat, n: int) returns (ok: bool)
    ensures ok <==> sid in NormalSet(mask, AtLeast0(n), 0)
  {
    var normalized := SpringNormalizeActionMask(mask, n);
    ok := sid < |normalized| && normalized[sid] > 0;
  }

  method ActionAllowed(mask: Option<seq<int>>, action: int, n: int) returns (ok: bool)
    ensures ok <==> action >= 0 && action in NormalSet(Given(mask), AtLeast0(n), 1)
  {
    var normalized := NormalizeActionMask(mask, n);
    ok := 0 <= action < |normalized| && normalized[action] > 0;
  }

  /** Scores for n shards; a missing one reads as zero. */
  function Padded(scores: seq<real>, n: nat): (r: seq<real>)
    ensures |r| == n
  {
    seq(n, s requires 0 <= s => if s < |scores| then scores[s] else 0.0)
  }

  /** The highest score among marked shards, first one wins; shard 0 when there are none. */
  method BestMarked(scores: seq<real>, normalized: seq<int>, ghost S: set<Sid>) returns (best: Sid)
    requires IsMask(normalized, |normalized|, S) && S <= Below(|normalized|)
    ensures S != {} ==> IsBest(S, Padded(scores, |normalized|), best)
    ensures S == {} ==> best == 0
  {
    best := 0;
    var found, top := false, 0.0;
    ghost var all := Padded(scores, |normalized|);
    for s := 0 to |normalized|
      invariant found ==> best < s && best in S && top == all[best]
      invariant !found ==> best == 0 && forall y: Sid :: y < s ==> y !in S
      invariant found ==> forall y: Sid :: y < s && y in S && y != best ==> Outranks(all, best, y)
    {
      if normalized[s] <= 0 {
        continue;
      }
      var score := if s < |scores| then scores[s] else 0.0;
      if !found || score > top {
        best, top, found := s, score, true;
      }
    }
    assert S != {} ==> found by {
      if y: Sid :| y in S {
        assert y in Below(|normalized|);
      }
    }
  }

  method BestAllowedAction(scores: seq<real>, mask: Option<seq<int>>, n: int) returns (best: Sid)
    ensures n > 0 ==> IsBest(NormalSet(Given(mask), AtLeast0(n), 1), Padded(scores, AtLeast0(n)), best)
    ensures n <= 0 ==> best == 0
  {
    var normalized := NormalizeActionMask(mask, n);
    best := BestMarked(scores, normalized, NormalSet(Given(mask), AtLeast0(n), 1));
  }

  // ----- The online builder -----

  method CandidateLoadPressures(c: Config, inp: Input, h: History) returns (ps: seq<real>)
    ensures ps == GoPressures(c, inp, h)
  {
    var total := 0;
    var load := inp.shardLoad;
    for s := 0 to |load|
      invariant total == SumNat(load[..s])
    {
      assert load[..s + 1][..s] == load[..s];
      total := total + load[s];
    }
    assert load[..|load|] == load;
    var scale := c.maxBlock as real;
    if scale <= 0.0 {
      scale := 1.0;
    }
    ps := [];
    for s := 0 to |load|
      invariant |ps| == s && forall i :: 0 <= i < s ==> ps[i] == GoPressure(c, inp, h, i)
    {
      var placement := 0.0;
      if total > 0 {
        placement := load[s] as real / total as real * scale;
      }
      var recent := 0;
      for back := 0 to 5
        invariant recent == RecentSum(h, s, back)
      {
        recent := recent + StatAt(h, s, back);
      }
      ps := ps + [placement + recent as real / 5.0];
    }
  }

  /** Marks the shards whose load is at most the threshold. */
  method GuardMask(ps: seq<real>, threshold: real) returns (guarded: seq<int>, count: nat)
    ensures IsMask(guarded, |ps|, AtMost(ps, threshold))
    ensures count == 0 <==> AtMost(ps, threshold) == {}
  {
    guarded, count := [], 0;
    for s := 0 to |ps|
      invariant |guarded| == s
      invariant forall i :: 0 <= i < s ==> guarded[i] == if ps[i] <= threshold then 1 else 0
      invariant count == 0 ==> forall i :: 0 <= i < s ==> ps[i] > threshold
      invariant count > 0 ==> AtMost(ps, threshold) != {}
    {
      if ps[s] <= threshold {
        assert s in AtMost(ps, threshold);
        guarded, count := guarded + [1], count + 1;
      } else {
        guarded := guarded + [0];
      }
    }
  }

  method Total(xs: seq<real>) returns (total: real)
    ensures total == SumReal(xs)
  {
    total := 0.0;
    for i := 0 to |xs|
      invariant total == SumReal(xs[..i])
    {
      assert xs[..i + 1][..i] == xs[..i];
      total := total + xs[i];
    }
    assert xs[..|xs|] == xs;
  }

  method AllowedList(mask: seq<int>, ghost S: set<Sid>) returns (allowed: seq<Sid>)
    requires IsMask(mask, |mask|, S) && S <= Below(|mask|)
    ensures Lists(allowed, S) && forall i :: 0 <= i < |allowed| ==> allowed[i] < |mask|
  {
    allowed := [];
    for s := 0 to |mask|
      invariant forall i :: 0 <= i < |allowed| ==> allowed[i] < s
      invariant Distinct(allowed) && forall x: Sid :: x in allowed <==> x in S && x < s
    {
      if mask[s] > 0 {
        allowed := allowed + [s];
      }
    }
  }

  /** Marks the first k of a sorted list. */
  method MarkFirst(sorted: seq<Sid>, n: nat, k: nat) returns (next: seq<int>)
    ensures Marks(next, n, FirstOf(sorted, k))
  {
    var keep := FirstOf(sorted, k);
    next := [];
    for s := 0 to n
      invariant |next| == s && forall i :: 0 <= i < s ==> next[i] == if i in keep then 1 else 0
    {
      next := next + [if s in keep then 1 else 0];
    }
  }

  method GoCutMask(mask: seq<int>, scores: seq<real>, k: nat, ghost S: set<Sid>) returns (next: seq<int>)
    requires IsMask(mask, |scores|, S) && S <= Below(|scores|)
    ensures GoCut(next, S, scores, k)
  {
    var allowed := AllowedList(mask, S);
    var sorted := GoSort(allowed, scores);
    assert Elems(allowed) == S;
    next := MarkFirst(sorted, |scores|, k);
  }

  method PyCutMask(mask: seq<int>, scores: seq<real>, k: nat, ghost S: set<Sid>) returns (next: seq<int>)
    requires IsMask(mask, |scores|, S) && S <= Below(|scores|)
    ensures PyCut(next, S, scores, k)
  {
    var allowed := AllowedList(mask, S);
    var sorted := PySort(allowed, scores);
    assert Elems(allowed) == S;
    next := MarkFirst(sorted, |scores|, k);
  }

  /** Normalizing a full mask that marks something changes nothing. */
  lemma NormalIsSame(mask: seq<int>, n: nat, S: set<Sid>, pad: int)
    requires IsMask(mask, n, S) && S <= Below(n) && (S != {} || n == 0)
    ensures NormalSet(mask, n, pad) == S
  {
    assert Positive(mask, n, pad) == S;
  }

  method ApplyGuard(ps: seq<real>, c: Config, cut: real) returns (mask: seq<int>)
    requires |ps| > 0
    ensures IsMask(mask, |ps|, GuardSet(ps, c.guard != 0, c.factor, cut))
  {
    var n := |ps|;
    mask := seq(n, _ => 1);
    if c.guard != 0 {
      var total := Total(ps);
      var mean := total / n as real;
      if mean > cut {
        var guarded, count := GuardMask(ps, Times(mean, if c.factor < 1.0 then 1.0 else c.factor));
        if count > 0 {
          mask := guarded;
        }
      }
    }
  }

  method SpringCandidateScores(c: Config, inp: Input, ps: seq<real>) returns (scores: seq<real>)
    ensures scores == GoScores(c, inp, ps)
  {
    var w := c.loadWeight;
    if w < 0.0 {
      w := 0.0;
    }
    scores := [];
    for s := 0 to |ps|
      invariant |scores| == s && forall i :: 0 <= i < s ==> scores[i] == GoScores(c, inp, ps)[i]
    {
      var related := 0.0;
      if s < |inp.senderPos| {
        related := inp.senderPos[s];
      }
      var score := related * 1000.0 - Times(w, ps[s]);
      if s == inp.hashSid {
        score := score + 0.001;
      }
      scores := scores + [score];
    }
  }

  /** The online builder. */
  method SpringBuildCandidateActionMask(c: Config, inp: Input, h: History) returns (mask: seq<int>)
    ensures GoBuilt(c, inp, h, mask) && IsMask(mask, |inp.shardLoad|, GoCandidates(c, inp, h))
  {
    var n := |inp.shardLoad|;
    if n == 0 || (c.topK <= 0 && c.guard == 0) {
      mask := seq(n, _ => 1);
      return;
    }
    var ps := CandidateLoadPressures(c, inp, h);
    var guarded := ApplyGuard(ps, c, GO_CUT);
    GuardSetNotEmpty(ps, c.guard != 0, c.factor, GO_CUT);
    var scores := SpringCandidateScores(c, inp, ps);
    mask := GoPrune(guarded, scores, c.topK, GoGuard(c, inp, h));
  }

  /** The cut and the final normalization, which changes nothing. */
  method GoPrune(guarded: seq<int>, scores: seq<real>, topK: int, ghost S: set<Sid>) returns (mask: seq<int>)
    requires IsMask(guarded, |scores|, S) && S <= Below(|scores|) && S != {}
    ensures if 0 < topK < |scores| then GoCut(mask, S, scores, topK) else IsMask(mask, |scores|, S)
    ensures IsMask(mask, |scores|, Candidates(S, scores, topK))
  {
    var n := |scores|;
    CandidatesNotEmpty(S, scores, topK);
    var next := guarded;
    if 0 < topK < n {
      next := GoCutMask(guarded, scores, topK, S);
      GoCutIsTop(next, S, scores, topK);
    }
    NormalIsSame(next, n, Candidates(S, scores, topK), 0);
    mask := SpringNormalizeActionMask(next, n);
    assert mask == next;
  }

  method SpringBestCandidateShard(c: Config, inp: Input, h: History, mask: seq<int>) returns (best: Sid)
    ensures |inp.shardLoad| > 0 ==>
              IsBest(NormalSet(mask, |inp.shardLoad|, 0), GoScores(c, inp, GoPressures(c, inp, h)), best)
    ensures |inp.shardLoad| == 0 ==> best == 0
  {
    var n := |inp.shardLoad|;
    var normalized := SpringNormalizeActionMask(mask, n);
    var ps := CandidateLoadPressures(c, inp, h);
    var scores := SpringCandidateScores(c, inp, ps);
    best := BestMarked(scores, normalized, NormalSet(mask, n, 0));
    assert Padded(scores, n) == scores;
  }

  /** The candidate-only choice does not depend on the cut: it is the best shard the guard admits. */
  method SpringChooseCandidateOnlyShard(c: Config, inp: Input, h: History) returns (sid: Sid, mask: seq<int>)
    ensures GoBuilt(c, inp, h, mask) && IsMask(mask, |inp.shardLoad|, GoCandidates(c, inp, h))
    ensures |inp.shardLoad| > 0 ==> IsBest(GoGuard(c, inp, h), GoScores(c, inp, GoPressures(c, inp, h)), sid)
  {
    mask := SpringBuildCandidateActionMask(c, inp, h);
    sid := SpringBestCandidateShard(c, inp, h, mask);
    if |inp.shardLoad| > 0 {
      BestOfMask(c, inp, h, mask, sid);
    }
  }

  lemma BestOfMask(c: Config, inp: Input, h: History, mask: seq<int>, sid: Sid)
    requires |inp.shardLoad| > 0 && IsMask(mask, |inp.shardLoad|, GoCandidates(c, inp, h))
    requires IsBest(NormalSet(mask, |inp.shardLoad|, 0), GoScores(c, inp, GoPressures(c, inp, h)), sid)
    ensures NormalSet(mask, |inp.shardLoad|, 0) == GoCandidates(c, inp, h)
    ensures IsBest(GoGuard(c, inp, h), GoScores(c, inp, GoPressures(c, inp, h)), sid)
  {
    var S, ps := GoGuard(c, inp, h), GoPressures(c, inp, h);
    var scores := GoScores(c, inp, ps);
    GuardSetNotEmpty(ps, c.guard != 0, c.factor, GO_CUT);
    CandidatesNotEmpty(S, scores, c.topK);
    NormalIsSame(mask, |inp.shardLoad|, GoCandidates(c, inp, h), 0);
    if c.topK >= 1 {
      BestIgnoresCut(S, scores, c.topK, sid);
    }
  }

  lemma CandidatesNotEmpty(S: set<Sid>, scores: seq<real>, topK: int)
    requires S <= Below(|scores|) && S != {}
    ensures Candidates(S, scores, topK) != {} && Candidates(S, scores, topK) <= S
  {
    if topK >= 1 {
      TopKFaithful(S, scores, topK);
    }
  }

  /** A proposed shard is kept when it is a candidate and replaced by the best candidate otherwise. */
  method SpringApplyCandidateGuard(c: Config, inp: Input, h: History, proposed: nat) returns (sid: Sid, replaced: bool)
    ensures replaced <==> proposed !in GoCandidates(c, inp, h)
    ensures !replaced ==> sid == proposed
    ensures |inp.shardLoad| > 0 ==> sid in GoCandidates(c, inp, h)
    ensures replaced && |inp.shardLoad| > 0 ==>
              IsBest(GoGuard(c, inp, h), GoScores(c, inp, GoPressures(c, inp, h)), sid)
    ensures |inp.shardLoad| == 0 ==> sid == 0
  {
    var mask := SpringBuildCandidateActionMask(c, inp, h);
    var best := SpringBestCandidateShard(c, inp, h, mask);
    if |inp.shardLoad| > 0 {
      BestOfMask(c, inp, h, mask, best);
    }
    var ok := SpringActionAllowed(mask, proposed, |inp.shardLoad|);
    if ok {
      return proposed, false;
    }
    return best, true;
  }

  // ----- The offline builder -----

  method OfflinePressures(c: Config, inp: Input, ws: seq<Window>) returns (ps: seq<real>)
    ensures ps == PyPressures(c, inp, ws)
  {
    ps := [];
    for s := 0 to |inp.shardLoad|
      invariant |ps| == s && forall i :: 0 <= i < s ==> ps[i] == PyPressure(c, inp, ws, i)
    {
      ps := ps + [PyPressure(c, inp, ws, s)];
    }
  }

  /** The offline builder. */
  method BuildCandidateActionMask(c: Config, inp: Input, ws: seq<Window>) returns (mask: seq<int>)
    ensures PyBuilt(c, inp, ws, mask) && IsMask(mask, |inp.shardLoad|, PyCandidates(c, inp, ws))
  {
    var n := |inp.shardLoad|;
    if n == 0 || (c.topK <= 0 && c.guard == 0) {
      mask := seq(n, _ => 1);
      return;
    }
    var ps := OfflinePressures(c, inp, ws);
    var guarded := ApplyGuard(ps, c, PY_CUT);
    GuardSetNotEmpty(ps, c.guard != 0, c.factor, PY_CUT);
    mask := PyPrune(guarded, PyScores(c, inp, ps), c.topK, PyGuard(c, inp, ws));
  }

  /** The cut and the final normalization, which changes nothing. */
  method PyPrune(guarded: seq<int>, scores: seq<real>, topK: int, ghost S: set<Sid>) returns (mask: seq<int>)
    requires IsMask(guarded, |scores|, S) && S <= Below(|scores|) && S != {}
    ensures if 0 < topK < |scores| then PyCut(mask, S, scores, topK) else IsMask(mask, |scores|, S)
    ensures IsMask(mask, |scores|, Candidates(S, scores, topK))
  {
    var n := |scores|;
    CandidatesNotEmpty(S, scores, topK);
    var next := guarded;
    if 0 < topK < n {
      next := PyCutMask(guarded, scores, topK, S);
      PyCutIsTop(next, S, scores, topK);
    }
    NormalIsSame(next, n, Candidates(S, scores, topK), 1);
    mask := NormalizeActionMask(Some(next), n);
    assert mask == next;
  }
}
