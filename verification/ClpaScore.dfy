/** Scores of neighbour shards, and which of them a vertex chooses. */
module ClpaScore {
  import opened ClpaGraph

  /** A floating-point score, reduced to what comparing scores can observe. */
  datatype Score = Finite(r: real) | PlusInf | MinusInf | NaN

  predicate Less(a: Score, b: Score) {
    match (a, b)
    case (NaN, _) => false
    case (_, NaN) => false
    case (Finite(x), Finite(y)) => x < y
    case (MinusInf, _) => b != MinusInf
    case (_, MinusInf) => false
    case (PlusInf, _) => false
    case (Finite(_), PlusInf) => true
  }

  /** edgesTo / degree * (1 - penalty * weight / minWeight), dividing as floats do. */
  function ScoreOf(edgesTo: nat, degree: nat, penalty: real, weight: int, minWeight: int): Score
    requires edgesTo > 0 && degree > 0
  {
    var scaled := penalty * (weight as real);
    if minWeight != 0 then
      Finite(edgesTo as real / degree as real * (1.0 - scaled / minWeight as real))
    else if scaled > 0.0 then MinusInf
    else if scaled < 0.0 then PlusInf
    else NaN
  }

  const FLOOR := Finite(-9999.0)

  function ShardScore(nbrs: seq<Vertex>, lab: Labels, k: nat, penalty: real, w: seq<int>, minWeight: int): Score
    requires k < |w| && CountLabel(nbrs, lab, k) > 0
  {
    ScoreOf(CountLabel(nbrs, lab, k), |nbrs|, penalty, w[k], minWeight)
  }

  /** While some shard has no edge, the minimum weight is zero; the shard of a neighbour has edges, so at a
      positive penalty its score is minus infinity, and not undefined. */
  lemma ZeroMinimumScore(es: seq<Edge>, lab: Labels, x: Vertex, y: Vertex, penalty: real, w: seq<int>)
    requires y in Adjacent(es, x) && penalty > 0.0
    requires w == IncidentPerShard(es, lab, |w|) && Label(lab, y) < |w|
    ensures CountLabel(Adjacent(es, x), lab, Label(lab, y)) > 0
    ensures ShardScore(Adjacent(es, x), lab, Label(lab, y), penalty, w, 0) == MinusInf
  {
    CountLabelPositive(Adjacent(es, x), lab, y);
    NeighborShardHasEdges(es, lab, x, y);
    assert penalty * (w[Label(lab, y)] as real) > 0.0;
  }

  /** The score times degree and minimum weight is the number of edges times what the penalty leaves of the
      minimum weight; with no minimum to divide by, only the sign of the penalty remains. */
  lemma ScoreMeans(edgesTo: nat, degree: nat, penalty: real, weight: int, least: int)
    requires edgesTo > 0 && degree > 0
    ensures var score := ScoreOf(edgesTo, degree, penalty, weight, least);
            if least != 0 then
              && score.Finite?
              && score.r * degree as real * least as real ==
                 edgesTo as real * (least as real - penalty * weight as real)
            else score == if penalty * weight as real > 0.0 then MinusInf
                          else if penalty * weight as real < 0.0 then PlusInf else NaN
  {
    if least != 0 {
      Cleared(edgesTo as real, degree as real, penalty * weight as real, least as real);
    }
  }

  lemma Cleared(e: real, d: real, s: real, m: real)
    requires d != 0.0 && m != 0.0
    ensures e / d * (1.0 - s / m) * d * m == e * (m - s)
  {
    var q, f := e / d, 1.0 - s / m;
    assert q * d == e;
    assert f * m == m - s by {
      assert s / m * m == s;
    }
    assert q * f * d * m == (q * d) * (f * m);
  }

  // ----- The choice -----

  function ScoreAt(nbrs: seq<Vertex>, lab: Labels, penalty: real, w: seq<int>, least: int, k: nat): Score {
    if k < |w| && CountLabel(nbrs, lab, k) > 0 then ShardScore(nbrs, lab, k, penalty, w, least) else NaN
  }

  ghost predicate NoneAboveFloor(nbrs: seq<Vertex>, lab: Labels, penalty: real, w: seq<int>, least: int) {
    forall j :: 0 <= j < |nbrs| ==> !Less(FLOOR, ScoreAt(nbrs, lab, penalty, w, least, Label(lab, nbrs[j])))
  }

  /** The i-th neighbour is the first one in a shard that scores above the floor and below no other. */
  ghost predicate FirstBest(nbrs: seq<Vertex>, lab: Labels, penalty: real, w: seq<int>, least: int, i: int) {
    0 <= i < |nbrs| &&
    var top := ScoreAt(nbrs, lab, penalty, w, least, Label(lab, nbrs[i]));
    && Less(FLOOR, top)
    && (forall j :: 0 <= j < i ==> ScoreAt(nbrs, lab, penalty, w, least, Label(lab, nbrs[j])) != top)
    && (forall j :: 0 <= j < |nbrs| ==> !Less(top, ScoreAt(nbrs, lab, penalty, w, least, Label(lab, nbrs[j]))))
  }

  /** The shard a vertex chooses: that of the first best neighbour, or its own if no neighbour shard scores
      above the floor. */
  ghost predicate Choice(nbrs: seq<Vertex>, lab: Labels, own: nat, penalty: real, w: seq<int>, least: int, best: nat) {
    || (NoneAboveFloor(nbrs, lab, penalty, w, least) && best == own)
    || (exists i :: FirstBest(nbrs, lab, penalty, w, least, i) && Label(lab, nbrs[i]) == best)
  }
}
