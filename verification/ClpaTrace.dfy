/** What label propagation does, visit by visit. */
module ClpaTrace {
  import opened Common
  import opened ClpaGraph
  import opened ClpaScore

  /** Labels, shard weights, cross-shard edges and the least weight, as the partitioner keeps them. */
  datatype View = View(lab: Labels, w: seq<int>, cross: int, least: int)

  /** One visit: what the partitioner saw, and what it did. */
  datatype Visited = Visited(x: Vertex, seen: View, skipped: bool, moved: bool, chosen: nat)

  /** What a visit must have done: the vertex chooses a shard, and goes there if it is not alone. */
  ghost predicate VisitOk(V: set<Vertex>, es: seq<Edge>, penalty: real, v: Visited) {
    v.x in V &&
    if v.skipped then !v.moved else
      var (s, own) := (v.seen, Label(v.seen.lab, v.x));
      && Choice(Adjacent(es, v.x), s.lab, own, penalty, s.w, s.least, v.chosen)
      && (v.moved <==> v.chosen != own && |Members(V, s.lab, own)| > 1)
  }

  function LabelsAfter(v: Visited): Labels {
    if v.moved then v.seen.lab[v.x := v.chosen] else v.seen.lab
  }

  /** After a move the statistics follow the incremental update; otherwise nothing changes. */
  ghost predicate Follows(es: seq<Edge>, v: Visited, s': View) {
    if v.moved then Updated(es, v, s') else s' == v.seen
  }

  ghost predicate Updated(es: seq<Edge>, v: Visited, s': View) {
    var (own, nbrs) := (Label(v.seen.lab, v.x), Adjacent(es, v.x));
    && s'.lab == LabelsAfter(v) && |s'.w| == |v.seen.w| && s'.least == MinFrom(s'.w)
    && s'.cross == v.seen.cross + FastCrossDelta(nbrs, s'.lab, own, v.chosen)
    && forall k :: 0 <= k < |s'.w| ==> s'.w[k] == v.seen.w[k] + FastDelta(nbrs, s'.lab, own, v.chosen, k)
  }

  /** A visit that was not skipped, from what was seen before it to what is seen after it. */
  ghost predicate VisitStep(V: set<Vertex>, es: seq<Edge>, penalty: real, now: View, v: Visited, s': View) {
    && !v.skipped && now == v.seen && VisitOk(V, es, penalty, v)
    && (v.moved ==> MoveAllowed(V, es, v.seen.lab, Move(v.x, Label(v.seen.lab, v.x), v.chosen)))
    && Follows(es, v, s')
  }

  function Made(trace: seq<Visited>): seq<Move> {
    if trace == [] then [] else
      var v := trace[|trace| - 1];
      Made(trace[..|trace| - 1]) + (if v.moved then [Move(v.x, Label(v.seen.lab, v.x), v.chosen)] else [])
  }

  /** The visits lead from one state to the other; a vertex is skipped once it has moved 50 times. */
  ghost predicate Traced(V: set<Vertex>, es: seq<Edge>, penalty: real, s: View, trace: seq<Visited>, s': View) {
    if trace == [] then s' == s else
      var (init, v) := (trace[..|trace| - 1], trace[|trace| - 1]);
      && Traced(V, es, penalty, s, init, v.seen)
      && VisitOk(V, es, penalty, v) && (v.skipped <==> MovesOf(Made(init), v.x) >= 50)
      && Follows(es, v, s')
  }

  /** The state of the sweeps: the recorded moves account for labels, result map and counters. */
  ghost predicate Running(V: set<Vertex>, es: seq<Edge>, penalty: real, s: View, trace: seq<Visited>, s': View,
                          res: Labels, threshold: map<Vertex, nat>)
  {
    Progress(V, es, s.lab, s'.lab, res, threshold, Made(trace)) && Traced(V, es, penalty, s, trace, s')
  }

  lemma TraceAppend(trace: seq<Visited>, v: Visited)
    ensures (trace + [v])[..|trace|] == trace
    ensures Made(trace + [v]) == Made(trace) + (if v.moved then [Move(v.x, Label(v.seen.lab, v.x), v.chosen)] else [])
  {
  }

  /** The result map and the move counters after a visit. */
  function Recorded(res: Labels, x: Vertex, moved: bool, chosen: nat): Labels {
    if moved then res[x := chosen] else res
  }

  function CountedMove(threshold: map<Vertex, nat>, x: Vertex, moved: bool): map<Vertex, nat> {
    if moved then threshold[x := TimesMoved(threshold, x) + 1] else threshold
  }

  /** The moves after one more visit. */
  function MadeWith(moves: seq<Move>, v: Visited): seq<Move> {
    if v.moved then moves + [Move(v.x, Label(v.seen.lab, v.x), v.chosen)] else moves
  }

  lemma TraceStep(V: set<Vertex>, es: seq<Edge>, penalty: real, s: View, trace: seq<Visited>, v: Visited, s': View)
    requires Traced(V, es, penalty, s, trace, v.seen) && VisitOk(V, es, penalty, v) && Follows(es, v, s')
    requires v.skipped <==> MovesOf(Made(trace), v.x) >= 50
    ensures Traced(V, es, penalty, s, trace + [v], s') && Made(trace + [v]) == MadeWith(Made(trace), v)
  {
    TraceAppend(trace, v);
  }

  lemma ProgressStep(V: set<Vertex>, es: seq<Edge>, start: Labels, res: Labels, threshold: map<Vertex, nat>,
                     moves: seq<Move>, v: Visited)
    requires Progress(V, es, start, v.seen.lab, res, threshold, moves)
    requires v.moved ==> MoveAllowed(V, es, v.seen.lab, Move(v.x, Label(v.seen.lab, v.x), v.chosen))
    requires v.moved ==> TimesMoved(threshold, v.x) < 50
    ensures Progress(V, es, start, LabelsAfter(v), Recorded(res, v.x, v.moved, v.chosen),
                     CountedMove(threshold, v.x, v.moved), MadeWith(moves, v))
  {
    if v.moved {
      ProgressMove(V, es, start, v.seen.lab, res, threshold, moves, Move(v.x, Label(v.seen.lab, v.x), v.chosen));
    }
  }

  lemma MovedSoFar(V: set<Vertex>, es: seq<Edge>, start: Labels, lab: Labels, res: Labels, threshold: map<Vertex, nat>,
                   moves: seq<Move>, x: Vertex)
    requires Progress(V, es, start, lab, res, threshold, moves)
    ensures MovesOf(moves, x) == TimesMoved(threshold, x)
  {
  }

  /** One visit, skipped or not. */
  lemma RunVisit(V: set<Vertex>, es: seq<Edge>, penalty: real, s: View, trace: seq<Visited>,
                 res: Labels, threshold: map<Vertex, nat>, v: Visited, s': View)
    requires Running(V, es, penalty, s, trace, v.seen, res, threshold)
    requires VisitOk(V, es, penalty, v) && Follows(es, v, s') && (v.skipped <==> TimesMoved(threshold, v.x) >= 50)
    requires v.moved ==> MoveAllowed(V, es, v.seen.lab, Move(v.x, Label(v.seen.lab, v.x), v.chosen))
    ensures Running(V, es, penalty, s, trace + [v], s', Recorded(res, v.x, v.moved, v.chosen),
                    CountedMove(threshold, v.x, v.moved))
  {
    MovedSoFar(V, es, s.lab, v.seen.lab, res, threshold, Made(trace), v.x);
    TraceStep(V, es, penalty, s, trace, v, s');
    ProgressStep(V, es, s.lab, res, threshold, Made(trace), v);
  }

  // ----- Sweeps -----

  function Xs(seg: seq<Visited>): (xs: seq<Vertex>)
    ensures |xs| == |seg|
  {
    seq(|seg|, i requires 0 <= i < |seg| => seg[i].x)
  }

  /** The visits reach every vertex of S exactly once. */
  ghost predicate Reaches(seg: seq<Visited>, S: set<Vertex>) {
    Distinct(Xs(seg)) && forall x :: x in Xs(seg) <==> x in S
  }

  lemma ReachesOneMore(seg: seq<Visited>, S: set<Vertex>, v: Visited)
    requires Reaches(seg, S) && v.x !in S
    ensures Reaches(seg + [v], S + {v.x})
  {
    assert Xs(seg + [v]) == Xs(seg) + [v.x];
  }

  lemma SweepStep(V: set<Vertex>, todo: set<Vertex>, trace: seq<Visited>, seg: seq<Visited>, v: Visited)
    requires Reaches(seg, V - todo) && v.x in todo && todo <= V
    ensures Reaches(seg + [v], V - (todo - {v.x}))
    ensures trace + seg + [v] == trace + (seg + [v])
  {
    ReachesOneMore(seg, V - todo, v);
    assert V - (todo - {v.x}) == V - todo + {v.x};
  }

  lemma SweepEnds(V: set<Vertex>, trace: seq<Visited>)
    ensures Reaches([], V - V) && V - {} == V && trace + [] == trace
  {
  }

  function Joined(sweeps: seq<seq<Visited>>): seq<Visited> {
    if sweeps == [] then [] else Joined(sweeps[..|sweeps| - 1]) + sweeps[|sweeps| - 1]
  }

  lemma JoinedAppend(sweeps: seq<seq<Visited>>, seg: seq<Visited>)
    ensures Joined(sweeps + [seg]) == Joined(sweeps) + seg
  {
    assert (sweeps + [seg])[..|sweeps|] == sweeps;
  }

  /** So many sweeps, each visiting every vertex once. */
  ghost predicate AllSweeps(sweeps: seq<seq<Visited>>, n: nat, V: set<Vertex>) {
    |sweeps| == n && forall k :: 0 <= k < n ==> Reaches(sweeps[k], V)
  }

  lemma RunStart(V: set<Vertex>, es: seq<Edge>, penalty: real, s: View)
    ensures Running(V, es, penalty, s, Joined([]), s, map[], map[]) && AllSweeps([], 0, V) && Made(Joined([])) == []
  {
    assert s.lab + map[] == s.lab;
  }

  lemma RunSweep(V: set<Vertex>, sweeps: seq<seq<Visited>>, n: nat, seg: seq<Visited>)
    requires AllSweeps(sweeps, n, V) && Reaches(seg, V)
    ensures AllSweeps(sweeps + [seg], n + 1, V) && Joined(sweeps + [seg]) == Joined(sweeps) + seg
  {
    JoinedAppend(sweeps, seg);
  }

  // ----- Nothing moves only when everything is stable -----

  /** The vertex is alone in its shard, or chooses the shard it is in. */
  ghost predicate Stable(V: set<Vertex>, es: seq<Edge>, penalty: real, s: View, x: Vertex) {
    exists best ::
      && Choice(Adjacent(es, x), s.lab, Label(s.lab, x), penalty, s.w, s.least, best)
      && (best == Label(s.lab, x) || |Members(V, s.lab, Label(s.lab, x))| <= 1)
  }

  lemma {:induction false} QuietTrace(V: set<Vertex>, es: seq<Edge>, penalty: real, s: View, trace: seq<Visited>,
                                      s': View)
    requires Traced(V, es, penalty, s, trace, s') && Made(trace) == []
    ensures s' == s && forall i :: 0 <= i < |trace| ==> Stable(V, es, penalty, s, trace[i].x)
  {
    if trace != [] {
      var init, v := trace[..|trace| - 1], trace[|trace| - 1];
      QuietTrace(V, es, penalty, s, init, v.seen);
      assert MovesOf(Made(init), v.x) == 0;
      assert Stable(V, es, penalty, s, v.x);
      assert forall i :: 0 <= i < |init| ==> trace[i] == init[i];
    }
  }

  /** If at least one sweep makes no move at all, every vertex was stable under the starting labels. */
  lemma QuietMeansStable(V: set<Vertex>, es: seq<Edge>, penalty: real, s: View, sweeps: seq<seq<Visited>>, s': View)
    requires Traced(V, es, penalty, s, Joined(sweeps), s') && Made(Joined(sweeps)) == []
    requires sweeps != [] && Reaches(sweeps[|sweeps| - 1], V)
    ensures forall x :: x in V ==> Stable(V, es, penalty, s, x)
  {
    var trace, last := Joined(sweeps), sweeps[|sweeps| - 1];
    QuietTrace(V, es, penalty, s, trace, s');
    forall x | x in V
      ensures Stable(V, es, penalty, s, x)
    {
      assert x in Xs(last);
      var i :| 0 <= i < |last| && Xs(last)[i] == x;
      var k := |trace| - |last| + i;
      assert trace == Joined(sweeps[..|sweeps| - 1]) + last;
      assert trace[k] == last[i];
    }
  }

  /** What the sweeps did to the labels: the result map laid over the old labels gives the new ones, by allowed
      moves, no vertex moving more than 50 times and no shard running empty; and if nothing moved in at least
      one sweep, everything was stable. */
  ghost predicate Outcome(V: set<Vertex>, es: seq<Edge>, penalty: real, s: View, sweeps: seq<seq<Visited>>, s': View,
                          res: Labels)
  {
    var moves := Made(Joined(sweeps));
    && Traced(V, es, penalty, s, Joined(sweeps), s')
    && s'.lab == s.lab + res && s'.lab == Replay(s.lab, moves) && MovesAllowed(V, es, s.lab, moves)
    && (forall x :: MovesOf(moves, x) <= 50)
    && (forall k: nat :: |Members(V, s.lab, k)| > 0 ==> |Members(V, s'.lab, k)| > 0)
    && (sweeps != [] && moves == [] ==> forall x :: x in V ==> Stable(V, es, penalty, s, x))
  }

  lemma RunOutcome(V: set<Vertex>, es: seq<Edge>, penalty: real, s: View, sweeps: seq<seq<Visited>>, n: nat, s': View,
                   res: Labels, threshold: map<Vertex, nat>)
    requires Running(V, es, penalty, s, Joined(sweeps), s', res, threshold) && AllSweeps(sweeps, n, V)
    ensures Outcome(V, es, penalty, s, sweeps, s', res)
  {
    var moves := Made(Joined(sweeps));
    if sweeps != [] && moves == [] {
      QuietMeansStable(V, es, penalty, s, sweeps, s');
    }
    forall k: nat | |Members(V, s.lab, k)| > 0
      ensures |Members(V, s'.lab, k)| > 0
    {
      NoShardEmpties(V, es, s.lab, moves, k);
    }
  }

  // ----- The statistics along the sweeps -----

  /** The view is that of a recount from scratch. */
  ghost predicate Exact(es: seq<Edge>, s: View) {
    s.w == IncidentPerShard(es, s.lab, |s.w|) && s.cross == CrossEdges(es, s.lab) && s.least == MinFrom(s.w)
  }

  ghost predicate LabelsInRange(V: set<Vertex>, s: View) {
    forall x :: x in V ==> Label(s.lab, x) < |s.w|
  }

  lemma VisitKeepsExact(V: set<Vertex>, es: seq<Edge>, penalty: real, v: Visited, s': View)
    requires VisitOk(V, es, penalty, v) && Follows(es, v, s')
    requires Exact(es, v.seen) && LabelsInRange(V, v.seen) && Edge(v.x, v.x) !in es
    ensures Exact(es, s') && LabelsInRange(V, s') && |s'.w| == |v.seen.w|
  {
    if v.moved {
      ChosenInRange(Adjacent(es, v.x), v.seen, penalty, Label(v.seen.lab, v.x), v.chosen);
      FastExact(es, v.seen.lab, v.x, v.chosen, v.seen.w, s'.w, v.seen.cross, s'.cross);
    }
  }

  lemma ChosenInRange(nbrs: seq<Vertex>, s: View, penalty: real, own: nat, best: nat)
    requires Choice(nbrs, s.lab, own, penalty, s.w, s.least, best) && best != own
    ensures best < |s.w|
  {
  }

  /** Without self-loops, statistics that start exact stay exact through every visit. */
  lemma {:induction false} TraceKeepsExact(V: set<Vertex>, es: seq<Edge>, penalty: real, s: View, trace: seq<Visited>,
                                           s': View)
    requires Traced(V, es, penalty, s, trace, s') && Exact(es, s) && LabelsInRange(V, s)
    requires forall x :: x in V ==> Edge(x, x) !in es
    ensures Exact(es, s') && LabelsInRange(V, s') && |s'.w| == |s.w|
  {
    if trace != [] {
      var init, v := trace[..|trace| - 1], trace[|trace| - 1];
      TraceKeepsExact(V, es, penalty, s, init, v.seen);
      VisitKeepsExact(V, es, penalty, v, s');
    }
  }

  /** While some shard has no edge and the penalty is positive, nothing moves. */
  lemma {:induction false} FrozenTrace(V: set<Vertex>, es: seq<Edge>, penalty: real, s: View, trace: seq<Visited>,
                                       s': View)
    requires Traced(V, es, penalty, s, trace, s') && Exact(es, s) && s.least == 0 && penalty > 0.0
    ensures s' == s && Made(trace) == []
  {
    if trace != [] {
      var init, v := trace[..|trace| - 1], trace[|trace| - 1];
      FrozenTrace(V, es, penalty, s, init, v.seen);
      if v.moved {
        FrozenChoice(es, s, penalty, v.x, v.chosen);
      }
    }
  }

  lemma FrozenChoice(es: seq<Edge>, s: View, penalty: real, x: Vertex, best: nat)
    requires Exact(es, s) && s.least == 0 && penalty > 0.0
    requires Choice(Adjacent(es, x), s.lab, Label(s.lab, x), penalty, s.w, s.least, best)
    ensures best == Label(s.lab, x)
  {
    var nbrs := Adjacent(es, x);
    forall j | 0 <= j < |nbrs|
      ensures !Less(FLOOR, ScoreAt(nbrs, s.lab, penalty, s.w, s.least, Label(s.lab, nbrs[j])))
    {
      if Label(s.lab, nbrs[j]) < |s.w| {
        ZeroMinimumScore(es, s.lab, x, nbrs[j], penalty, s.w);
      }
    }
  }

  /** What one visit of exact statistics does to them. */
  lemma VisitStatistics(V: set<Vertex>, es: seq<Edge>, penalty: real, v: Visited, s': View)
    requires VisitOk(V, es, penalty, v) && !v.skipped && Follows(es, v, s')
    requires Exact(es, v.seen) && LabelsInRange(V, v.seen)
    ensures Edge(v.x, v.x) !in es ==> Exact(es, s') && |s'.w| == |v.seen.w|
    ensures v.seen.least == 0 && penalty > 0.0 ==> !v.moved && s' == v.seen
  {
    if Edge(v.x, v.x) !in es {
      VisitKeepsExact(V, es, penalty, v, s');
    }
    if v.seen.least == 0 && penalty > 0.0 && v.moved {
      FrozenChoice(es, v.seen, penalty, v.x, v.chosen);
    }
  }
}
