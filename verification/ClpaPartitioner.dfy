/** The partitioner: a graph grown edge by edge, and label propagation over it.

    Ranging over a Go map visits its keys in an arbitrary order, so the loops below pick any vertex
    that is not yet visited. Integers are unbounded. */
module ClpaPartitioner {
  import opened ClpaGraph
  import opened ClpaScore
  import opened ClpaTrace

  // ----- The loops over adjacency lists -----

  /** Weights per shard and crossing edges, counted from the adjacency lists in any order. */
  method Recount(adj: map<Vertex, seq<Vertex>>, lab: Labels, n: nat, ghost es: seq<Edge>)
    returns (w: seq<int>, cross: int)
    requires Describes(adj, es) && forall x :: x in Ends(es) ==> Label(lab, x) < n
    ensures w == IncidentPerShard(es, lab, n) && cross == CrossEdges(es, lab)
  {
    var inner;
    w, inner := CountHalfEdges(adj, lab, n, es);
    var S := adj.Keys;
    cross := 0;
    HalfCrossBelowStep(es, lab, S, 0);
    for i := 0 to n
      invariant cross == HalfCrossBelow(es, lab, S, i)
    {
      HalfCrossBelowStep(es, lab, S, i);
      cross := cross + w[i];
    }
    CrossSeenTwice(es, lab, S, n);
    cross := cross / 2;
    for i := 0 to n
      invariant |w| == n
      invariant forall k :: 0 <= k < i ==> w[k] == Incident(es, lab, k)
      invariant forall k :: i <= k < n ==> w[k] == HalfCross(es, lab, S, k)
    {
      Handshake(es, lab, S, i);
      w := w[i := w[i] + inner[i] / 2];
    }
  }

  method CountHalfEdges(adj: map<Vertex, seq<Vertex>>, lab: Labels, n: nat, ghost es: seq<Edge>)
    returns (w: seq<int>, inner: seq<int>)
    requires Describes(adj, es) && forall x :: x in Ends(es) ==> Label(lab, x) < n
    ensures |w| == |inner| == n
    ensures forall k :: 0 <= k < n ==>
              w[k] == HalfCross(es, lab, adj.Keys, k) && inner[k] == HalfInner(es, lab, adj.Keys, k)
  {
    w, inner := seq(n, _ => 0), seq(n, _ => 0);
    var todo := adj.Keys;
    ghost var seen: set<Vertex> := {};
    forall k: nat | k < n
      ensures HalfCross(es, lab, {}, k) == 0 && HalfInner(es, lab, {}, k) == 0
    {
      HalfEmpty(es, lab, k);
    }
    while todo != {}
      invariant todo !! seen && todo + seen == adj.Keys
      invariant |w| == |inner| == n
      invariant forall k :: 0 <= k < n ==>
                  w[k] == HalfCross(es, lab, seen, k) && inner[k] == HalfInner(es, lab, seen, k)
      decreases todo
    {
      var x :| x in todo;
      NeighborsAreEnds(es, x);
      w, inner := CountList(adj[x], Label(lab, x), lab, w, inner);
      forall k: nat | k < n
        ensures w[k] == HalfCross(es, lab, seen + {x}, k) && inner[k] == HalfInner(es, lab, seen + {x}, k)
      {
        HalfVisit(es, lab, seen, x, k);
      }
      todo, seen := todo - {x}, seen + {x};
    }
    assert seen == adj.Keys;
  }

  method CountList(lst: seq<Vertex>, xShard: nat, lab: Labels, w0: seq<int>, inner0: seq<int>)
    returns (w: seq<int>, inner: seq<int>)
    requires |w0| == |inner0| && forall y :: y in lst ==> Label(lab, y) < |w0|
    ensures |w| == |inner| == |w0|
    ensures forall k :: 0 <= k < |w0| ==> w[k] == w0[k] + (if xShard != k then CountLabel(lst, lab, k) else 0)
    ensures forall k :: 0 <= k < |w0| ==> inner[k] == inner0[k] + (if xShard == k then CountLabel(lst, lab, k) else 0)
  {
    w, inner := w0, inner0;
    for i := 0 to |lst|
      invariant |w| == |inner| == |w0|
      invariant forall k :: 0 <= k < |w0| ==> w[k] == w0[k] + (if xShard != k then CountLabel(lst[..i], lab, k) else 0)
      invariant forall k :: 0 <= k < |w0| ==>
                  inner[k] == inner0[k] + (if xShard == k then CountLabel(lst[..i], lab, k) else 0)
    {
      assert lst[..i + 1][..i] == lst[..i];
      var uShard := Label(lab, lst[i]);
      if xShard != uShard {
        w := w[uShard := w[uShard] + 1];
      } else {
        inner := inner[uShard := inner[uShard] + 1];
      }
    }
    assert lst[..|lst|] == lst;
  }

  method MinOf(w: seq<int>) returns (m: int)
    ensures m == MinFrom(w)
  {
    m := MAX_INT;
    for i := 0 to |w|
      invariant m == MinFrom(w[..i])
    {
      assert w[..i + 1][..i] == w[..i];
      if m > w[i] {
        m := w[i];
      }
    }
    assert w[..|w|] == w;
  }

  method FastUpdate(nbrs: seq<Vertex>, lab: Labels, before: nat, after: nat, w0: seq<int>, cross0: int)
    returns (w: seq<int>, cross: int)
    requires before < |w0| && after < |w0|
    ensures |w| == |w0| && forall k :: 0 <= k < |w0| ==> w[k] == w0[k] + FastDelta(nbrs, lab, before, after, k)
    ensures cross == cross0 + FastCrossDelta(nbrs, lab, before, after)
  {
    w, cross := w0, cross0;
    for i := 0 to |nbrs|
      invariant |w| == |w0|
      invariant forall k :: 0 <= k < |w0| ==> w[k] == w0[k] + FastDelta(nbrs[..i], lab, before, after, k)
      invariant cross == cross0 + FastCrossDelta(nbrs[..i], lab, before, after)
    {
      assert nbrs[..i + 1][..i] == nbrs[..i];
      var c := Label(lab, nbrs[i]);
      if c != after && c != before {
        w := w[after := w[after] + 1];
        w := w[before := w[before] - 1];
      } else if c == after {
        w := w[before := w[before] - 1];
        cross := cross - 1;
      } else {
        w := w[after := w[after] + 1];
        cross := cross + 1;
      }
    }
    assert nbrs[..|nbrs|] == nbrs;
  }

  // ----- Choosing the best neighbouring shard -----

  method GetShardScore(nbrs: seq<Vertex>, lab: Labels, k: nat, penalty: real, w: seq<int>, minWeight: int)
    returns (score: Score)
    requires k < |w| && CountLabel(nbrs, lab, k) > 0
    ensures score == ShardScore(nbrs, lab, k, penalty, w, minWeight)
  {
    var edgesTo := 0;
    for i := 0 to |nbrs|
      invariant edgesTo == CountLabel(nbrs[..i], lab, k)
    {
      assert nbrs[..i + 1][..i] == nbrs[..i];
      if Label(lab, nbrs[i]) == k {
        edgesTo := edgesTo + 1;
      }
    }
    assert nbrs[..|nbrs|] == nbrs;
    score := ScoreOf(edgesTo, |nbrs|, penalty, w[k], minWeight);
  }

  /** The vertex stays, or goes to a neighbour's shard that scores above the floor; either way no
      neighbour's shard scores higher. */
  method ChooseShard(x: Vertex, nbrs: seq<Vertex>, lab: Labels, penalty: real, w: seq<int>, minWeight: int)
    returns (best: nat, top: Score)
    requires forall y :: y in nbrs ==> Label(lab, y) < |w| && CountLabel(nbrs, lab, Label(lab, y)) > 0
    ensures || (best == Label(lab, x) && top == FLOOR)
            || (&& (exists y :: y in nbrs && Label(lab, y) == best)
                && best < |w| && CountLabel(nbrs, lab, best) > 0
                && top == ShardScore(nbrs, lab, best, penalty, w, minWeight) && Less(FLOOR, top))
    ensures forall y :: y in nbrs ==> !Less(top, ShardScore(nbrs, lab, Label(lab, y), penalty, w, minWeight))
    ensures Choice(nbrs, lab, Label(lab, x), penalty, w, minWeight, best)
  {
    var scored: set<nat> := {};
    best, top := Label(lab, x), FLOOR;
    ghost var at := -1;
    for i := 0 to |nbrs|
      invariant -1 <= at < i && (at < 0 ==> best == Label(lab, x) && top == FLOOR)
      invariant at >= 0 ==> Label(lab, nbrs[at]) == best && Less(FLOOR, top)
      invariant at >= 0 ==> top == ScoreAt(nbrs, lab, penalty, w, minWeight, best)
      invariant forall j :: 0 <= j < at ==> ScoreAt(nbrs, lab, penalty, w, minWeight, Label(lab, nbrs[j])) != top
      invariant forall j :: 0 <= j < i ==> !Less(top, ScoreAt(nbrs, lab, penalty, w, minWeight, Label(lab, nbrs[j])))
      invariant forall j :: 0 <= j < i ==> Label(lab, nbrs[j]) in scored
      invariant forall k :: k in scored ==> exists y :: y in nbrs && Label(lab, y) == k
      invariant || (best == Label(lab, x) && top == FLOOR)
                || (&& (exists y :: y in nbrs && Label(lab, y) == best)
                    && top == ShardScore(nbrs, lab, best, penalty, w, minWeight) && Less(FLOOR, top))
      invariant forall k :: k in scored ==> !Less(top, ShardScore(nbrs, lab, k, penalty, w, minWeight))
    {
      var uShard := Label(lab, nbrs[i]);
      assert nbrs[i] in nbrs;
      if uShard !in scored {
        var score := GetShardScore(nbrs, lab, uShard, penalty, w, minWeight);
        if Less(top, score) {
          best, top, at := uShard, score, i;
        }
        scored := scored + {uShard};
      }
    }
    if at >= 0 {
      assert FirstBest(nbrs, lab, penalty, w, minWeight, at);
    } else {
      assert NoneAboveFloor(nbrs, lab, penalty, w, minWeight);
    }
  }

  /** A vertex keeps the label it has and otherwise gets the given one. */
  function Labelled(lab: Labels, x: Vertex, k: nat): Labels {
    if x in lab then lab else lab[x := k]
  }

  class CLPAState {
    var vertexSet: set<Vertex>
    var edgeSet: map<Vertex, seq<Vertex>>
    var partitionMap: Labels
    var edges2Shard: seq<int>
    var vertexsNumInShard: seq<int>
    var minEdges2Shard: int
    var crossShardEdgeNum: int
    const weightPenalty: real
    const maxIterations: nat
    const shardNum: nat
    /** The shard an address hashes to. */
    const addr2Shard: Vertex -> nat
    /** Every edge added so far, oldest first. */
    ghost var edges: seq<Edge>

    /** The graph is the one its edge history describes, and every vertex has a shard. */
    ghost predicate Shaped()
      reads this
    {
      && shardNum > 0 && |vertexsNumInShard| == shardNum
      && (forall x :: addr2Shard(x) < shardNum)
      && (forall x :: x in partitionMap ==> partitionMap[x] < shardNum)
      && Ends(edges) <= vertexSet <= partitionMap.Keys
      && Describes(edgeSet, edges)
    }

    ghost predicate Valid()
      reads this
    {
      Shaped() && Counts(vertexSet, partitionMap, vertexsNumInShard)
    }

    /** The statistics a recount from scratch would produce. */
    ghost predicate Accurate()
      reads this
    {
      && edges2Shard == IncidentPerShard(edges, partitionMap, shardNum)
      && crossShardEdgeNum == CrossEdges(edges, partitionMap)
      && minEdges2Shard == MinFrom(edges2Shard)
    }

    ghost predicate NoSelfLoops()
      reads this
    {
      forall x :: Edge(x, x) !in edges
    }

    /** Some shard has no incident edge, so every score divides by zero. */
    ghost predicate Frozen()
      reads this
    {
      Accurate() && minEdges2Shard == 0 && weightPenalty > 0.0
    }

    constructor (penalty: real, iterations: nat, shards: nat, hashShard: Vertex -> nat)
      requires shards > 0 && forall x :: hashShard(x) < shards
      ensures Valid() && edges == [] && partitionMap == map[] && vertexSet == {}
      ensures shardNum == shards && addr2Shard == hashShard
      ensures weightPenalty == penalty && maxIterations == iterations
    {
      weightPenalty, maxIterations, shardNum, addr2Shard := penalty, iterations, shards, hashShard;
      vertexSet, edgeSet, partitionMap, edges := {}, map[], map[], [];
      vertexsNumInShard := seq(shards, _ => 0);
      edges2Shard, minEdges2Shard, crossShardEdgeNum := [], 0, 0;
    }

    /** Copies remembered labels into a graph that has no vertex yet. */
    method SeedLabels(lab: Labels)
      requires Valid() && vertexSet == {} && forall x :: x in lab ==> lab[x] < shardNum
      modifies this`partitionMap
      ensures Valid() && partitionMap == lab
    {
      partitionMap := map[];
      var todo := lab.Keys;
      while todo != {}
        invariant todo <= lab.Keys
        invariant partitionMap == map x | x in lab && x !in todo :: lab[x]
        decreases todo
      {
        var x :| x in todo;
        partitionMap := partitionMap[x := lab[x]];
        todo := todo - {x};
      }
      forall k: nat
        ensures Members(vertexSet, partitionMap, k) == Members(vertexSet, old(partitionMap), k)
      {
      }
    }

    /** Adding a vertex keeps its label if it already has one. Counters stay exact exactly when the
        vertex is new to the graph. */
    method AddVertex(x: Vertex)
      requires Valid()
      modifies this`vertexSet, this`partitionMap, this`vertexsNumInShard
      ensures Shaped() && vertexSet == old(vertexSet) + {x}
      ensures partitionMap == Labelled(old(partitionMap), x, addr2Shard(x))
      ensures Counts(vertexSet, partitionMap, vertexsNumInShard) <==> x !in old(vertexSet)
    {
      ghost var V, lab, counts := vertexSet, partitionMap, vertexsNumInShard;
      vertexSet := vertexSet + {x};
      if x !in partitionMap {
        partitionMap := partitionMap[x := addr2Shard(x)];
      }
      var s := partitionMap[x];
      vertexsNumInShard := vertexsNumInShard[s := vertexsNumInShard[s] + 1];
      CountsAfterAdd(V, lab, partitionMap, counts, x);
    }

    method EnsureVertex(x: Vertex)
      requires Valid()
      modifies this`vertexSet, this`partitionMap, this`vertexsNumInShard
      ensures Valid() && vertexSet == old(vertexSet) + {x}
      ensures partitionMap == Labelled(old(partitionMap), x, addr2Shard(x))
    {
      if x !in vertexSet {
        AddVertex(x);
      }
    }

    method AddEdge(u: Vertex, v: Vertex)
      requires Valid()
      modifies this`vertexSet, this`partitionMap, this`vertexsNumInShard, this`edgeSet, this`edges
      ensures Valid() && edges == old(edges) + [Edge(u, v)] && vertexSet == old(vertexSet) + {u, v}
      ensures partitionMap == Labelled(Labelled(old(partitionMap), u, addr2Shard(u)), v, addr2Shard(v))
    {
      EnsureVertex(u);
      EnsureVertex(v);
      Link(u, v);
    }

    method Link(u: Vertex, v: Vertex)
      requires Valid() && u in vertexSet && v in vertexSet
      modifies this`edgeSet, this`edges
      ensures Valid() && edges == old(edges) + [Edge(u, v)]
    {
      DescribesAppend(edgeSet, edges, u, v);
      edgeSet := AppendBoth(edgeSet, u, v);
      edges := edges + [Edge(u, v)];
    }

    /** The slow recount. It is exact on every graph, self-loops included, and so changes nothing
        when the statistics already were exact. */
    method ComputeEdges2Shard()
      requires Shaped()
      modifies this`edges2Shard, this`crossShardEdgeNum, this`minEdges2Shard
      ensures Accurate()
      ensures old(Accurate()) ==>
                && edges2Shard == old(edges2Shard)
                && crossShardEdgeNum == old(crossShardEdgeNum)
                && minEdges2Shard == old(minEdges2Shard)
    {
      edges2Shard, crossShardEdgeNum := Recount(edgeSet, partitionMap, shardNum, edges);
      minEdges2Shard := MinOf(edges2Shard);
    }

    /** The fast update after x moved away from its shard. Started from exact statistics it leaves
        exact ones, for all three fields, exactly when x has no self-loop. */
    method ChangeShardRecompute(x: Vertex, before: nat, ghost lab: Labels)
      requires Shaped() && x in vertexSet
      requires x in lab && lab[x] == before < shardNum == |edges2Shard|
      requires partitionMap == lab[x := partitionMap[x]] && partitionMap[x] != before
      modifies this`edges2Shard, this`crossShardEdgeNum, this`minEdges2Shard
      ensures |edges2Shard| == shardNum && minEdges2Shard == MinFrom(edges2Shard)
      ensures forall k :: 0 <= k < shardNum ==>
                edges2Shard[k] ==
                old(edges2Shard)[k] + FastDelta(Adjacent(edges, x), partitionMap, before, partitionMap[x], k)
      ensures crossShardEdgeNum ==
              old(crossShardEdgeNum) + FastCrossDelta(Adjacent(edges, x), partitionMap, before, partitionMap[x])
      ensures old(edges2Shard) == IncidentPerShard(edges, lab, shardNum)
              && old(crossShardEdgeNum) == CrossEdges(edges, lab)
              ==> (Accurate() <==> Edge(x, x) !in edges)
    {
      var after := partitionMap[x];
      ListIsAdjacent(edgeSet, edges, x);
      var w, cross := FastUpdate(ListOf(edgeSet, x), partitionMap, before, after, edges2Shard, crossShardEdgeNum);
      var m := MinOf(w);
      if edges2Shard == IncidentPerShard(edges, lab, shardNum) && crossShardEdgeNum == CrossEdges(edges, lab) {
        FastExact(edges, lab, x, after, edges2Shard, w, crossShardEdgeNum, cross);
      }
      edges2Shard, crossShardEdgeNum, minEdges2Shard := w, cross, m;
    }

    /** What scoring and choosing look at. */
    ghost function Seen(): View
      reads this
    {
      View(partitionMap, edges2Shard, crossShardEdgeNum, minEdges2Shard)
    }

    /** One vertex of one sweep. It moves exactly when it is not alone and chooses another shard, and then to
        that shard. A move is always an allowed one, keeps the statistics exact unless the vertex has a
        self-loop, and never happens while some shard has no incident edge. */
    method Visit(x: Vertex) returns (moved: bool, best: nat, ghost v: Visited)
      requires Valid() && x in vertexSet && |edges2Shard| == shardNum
      modifies this`partitionMap, this`vertexsNumInShard, this`edges2Shard, this`crossShardEdgeNum, this`minEdges2Shard
      ensures Valid() && |edges2Shard| == shardNum
      ensures v.x == x && v.moved == moved && v.chosen == best
      ensures VisitStep(vertexSet, edges, weightPenalty, old(Seen()), v, Seen())
      ensures moved ==> partitionMap == old(partitionMap)[x := v.chosen]
      ensures old(Accurate()) && Edge(x, x) !in edges ==> Accurate()
      ensures old(Frozen()) ==> !moved && Frozen()
    {
      var now := Label(partitionMap, x);
      NeighborFacts(x);
      ghost var V, es, seen := vertexSet, edges, Seen();
      var top;
      best, top := ChooseShard(x, ListOf(edgeSet, x), partitionMap, weightPenalty, edges2Shard, minEdges2Shard);
      moved := now != best && vertexsNumInShard[now] > 1;
      v := Visited(x, seen, false, moved, best);
      assert VisitOk(V, es, weightPenalty, v);
      if moved {
        Relocate(x, now, best);
      }
      ghost var later := Seen();
      assert Follows(es, v, later);
      if Exact(es, seen) {
        VisitStatistics(V, es, weightPenalty, v, later);
      }
    }

    method Relocate(x: Vertex, now: nat, best: nat)
      requires Valid() && x in vertexSet && |edges2Shard| == shardNum
      requires now == Label(partitionMap, x) != best < shardNum
      modifies this`partitionMap, this`vertexsNumInShard, this`edges2Shard, this`crossShardEdgeNum, this`minEdges2Shard
      ensures Valid() && |edges2Shard| == shardNum && minEdges2Shard == MinFrom(edges2Shard)
      ensures partitionMap == old(partitionMap)[x := best]
      ensures forall k :: 0 <= k < shardNum ==>
                edges2Shard[k] == old(edges2Shard)[k] + FastDelta(Adjacent(edges, x), partitionMap, now, best, k)
      ensures crossShardEdgeNum == old(crossShardEdgeNum) + FastCrossDelta(Adjacent(edges, x), partitionMap, now, best)
    {
      ghost var lab := partitionMap;
      partitionMap := partitionMap[x := best];
      CountsAfterMove(vertexSet, lab, vertexsNumInShard, x, best);
      vertexsNumInShard := vertexsNumInShard[now := vertexsNumInShard[now] - 1];
      vertexsNumInShard := vertexsNumInShard[best := vertexsNumInShard[best] + 1];
      ChangeShardRecompute(x, now, lab);
    }

    lemma NeighborFacts(x: Vertex)
      requires Valid() && x in vertexSet && |edges2Shard| == shardNum
      ensures ListOf(edgeSet, x) == Adjacent(edges, x)
      ensures forall y :: y in Adjacent(edges, x) ==>
                && Label(partitionMap, y) < shardNum
                && CountLabel(Adjacent(edges, x), partitionMap, Label(partitionMap, y)) > 0
                && (Accurate() ==> edges2Shard[Label(partitionMap, y)] > 0)
    {
      ListIsAdjacent(edgeSet, edges, x);
      NeighborsAreEnds(edges, x);
      forall y | y in Adjacent(edges, x)
        ensures CountLabel(Adjacent(edges, x), partitionMap, Label(partitionMap, y)) > 0
        ensures Incident(edges, partitionMap, Label(partitionMap, y)) > 0
      {
        CountLabelPositive(Adjacent(edges, x), partitionMap, y);
        NeighborShardHasEdges(edges, partitionMap, x, y);
      }
    }

    /** All sweeps. The returned changes, laid over the old labels, are exactly the new labels; no vertex
        moves more than 50 times; and on a graph without self-loops the statistics stay exact throughout. */
    method Propagate() returns (res: Labels, ghost sweeps: seq<seq<Visited>>)
      requires Valid() && Accurate()
      modifies this`partitionMap, this`vertexsNumInShard, this`edges2Shard, this`crossShardEdgeNum, this`minEdges2Shard
      ensures Valid() && (NoSelfLoops() ==> Accurate()) && AllSweeps(sweeps, maxIterations, vertexSet)
      ensures Outcome(vertexSet, edges, weightPenalty, old(Seen()), sweeps, Seen(), res)
      ensures old(Frozen()) ==> Made(Joined(sweeps)) == []
    {
      ghost var start := Seen();
      res, sweeps := map[], [];
      var updateThreshold: map<Vertex, nat> := map[];
      RunStart(vertexSet, edges, weightPenalty, start);
      for iter := 0 to maxIterations
        invariant Valid() && |edges2Shard| == shardNum && AllSweeps(sweeps, iter, vertexSet)
        invariant Running(vertexSet, edges, weightPenalty, start, Joined(sweeps), Seen(), res, updateThreshold)
      {
        ghost var seg;
        res, updateThreshold, seg := Sweep(start, res, updateThreshold, Joined(sweeps));
        RunSweep(vertexSet, sweeps, iter, seg);
        sweeps := sweeps + [seg];
      }
      RunOutcome(vertexSet, edges, weightPenalty, start, sweeps, maxIterations, Seen(), res, updateThreshold);
      if NoSelfLoops() {
        TraceKeepsExact(vertexSet, edges, weightPenalty, start, Joined(sweeps), Seen());
      }
      if start.least == 0 && weightPenalty > 0.0 {
        FrozenTrace(vertexSet, edges, weightPenalty, start, Joined(sweeps), Seen());
      }
    }

    /** One pass that visits every vertex once, in any order. */
    method Sweep(ghost start: View, res0: Labels, threshold0: map<Vertex, nat>, ghost trace0: seq<Visited>)
      returns (res: Labels, threshold: map<Vertex, nat>, ghost seg: seq<Visited>)
      requires Valid() && |edges2Shard| == shardNum
      requires Running(vertexSet, edges, weightPenalty, start, trace0, Seen(), res0, threshold0)
      modifies this`partitionMap, this`vertexsNumInShard, this`edges2Shard, this`crossShardEdgeNum, this`minEdges2Shard
      ensures Valid() && |edges2Shard| == shardNum && Reaches(seg, vertexSet)
      ensures Running(vertexSet, edges, weightPenalty, start, trace0 + seg, Seen(), res, threshold)
    {
      res, threshold, seg := res0, threshold0, [];
      var todo := vertexSet;
      SweepEnds(vertexSet, trace0);
      while todo != {}
        invariant todo <= vertexSet && Reaches(seg, vertexSet - todo)
        invariant Valid() && |edges2Shard| == shardNum
        invariant Running(vertexSet, edges, weightPenalty, start, trace0 + seg, Seen(), res, threshold)
        decreases todo
      {
        var x :| x in todo;
        ghost var v;
        res, threshold, v := VisitAndRecord(x, start, res, threshold, trace0 + seg);
        SweepStep(vertexSet, todo, trace0, seg, v);
        todo := todo - {x};
        seg := seg + [v];
      }
    }

    /** Visits a vertex unless it has moved 50 times, and records the visit. */
    method VisitAndRecord(x: Vertex, ghost start: View, res0: Labels, threshold0: map<Vertex, nat>,
                          ghost trace: seq<Visited>)
      returns (res: Labels, threshold: map<Vertex, nat>, ghost v: Visited)
      requires Valid() && |edges2Shard| == shardNum && x in vertexSet
      requires Running(vertexSet, edges, weightPenalty, start, trace, Seen(), res0, threshold0)
      modifies this`partitionMap, this`vertexsNumInShard, this`edges2Shard, this`crossShardEdgeNum, this`minEdges2Shard
      ensures Valid() && |edges2Shard| == shardNum && v.x == x
      ensures Running(vertexSet, edges, weightPenalty, start, trace + [v], Seen(), res, threshold)
    {
      if TimesMoved(threshold0, x) >= 50 {
        v := Visited(x, Seen(), true, false, 0);
        RunVisit(vertexSet, edges, weightPenalty, start, trace, res0, threshold0, v, Seen());
        res, threshold := res0, threshold0;
      } else {
        res, threshold, v := VisitOnce(x, vertexSet, edges, start, res0, threshold0, trace);
      }
    }

    method VisitOnce(x: Vertex, ghost V: set<Vertex>, ghost es: seq<Edge>, ghost start: View, res0: Labels,
                     threshold0: map<Vertex, nat>, ghost trace: seq<Visited>)
      returns (res: Labels, threshold: map<Vertex, nat>, ghost v: Visited)
      requires Valid() && |edges2Shard| == shardNum && x in vertexSet && TimesMoved(threshold0, x) < 50
      requires V == vertexSet && es == edges && Running(V, es, weightPenalty, start, trace, Seen(), res0, threshold0)
      modifies this`partitionMap, this`vertexsNumInShard, this`edges2Shard, this`crossShardEdgeNum, this`minEdges2Shard
      ensures Valid() && |edges2Shard| == shardNum && v.x == x
      ensures Running(V, es, weightPenalty, start, trace + [v], Seen(), res, threshold)
    {
      var moved, best;
      moved, best, v := Visit(x);
      res, threshold := Recorded(res0, x, moved, best), CountedMove(threshold0, x, moved);
      RunVisit(V, es, weightPenalty, start, trace, res0, threshold0, v, Seen());
    }

    /** The whole algorithm: recount, sweep, recount. The labels are what the recorded sweeps make of the old
        ones, each visiting every vertex once; what the sweeps kept up to date is what the last recount finds,
        on a graph without self-loops; and no move at all means that every vertex was stable. */
    method Partition() returns (res: Labels, cross: int, ghost sweeps: seq<seq<Visited>>, ghost kept: View)
      requires Valid()
      modifies this`partitionMap, this`vertexsNumInShard, this`edges2Shard, this`crossShardEdgeNum, this`minEdges2Shard
      ensures Valid() && Accurate() && cross == crossShardEdgeNum
      ensures kept.lab == partitionMap == old(partitionMap) + res && (NoSelfLoops() ==> kept == Seen())
      ensures AllSweeps(sweeps, maxIterations, vertexSet)
      ensures Outcome(vertexSet, edges, weightPenalty, Exactly(old(partitionMap)), sweeps, kept, res)
      ensures (exists k: nat :: k < shardNum && Incident(edges, old(partitionMap), k) == 0) && weightPenalty > 0.0
              ==> partitionMap == old(partitionMap)
    {
      ComputeEdges2Shard();
      res, sweeps := Propagate();
      kept := Seen();
      ComputeEdges2Shard();
      cross := crossShardEdgeNum;
    }

    /** The exact statistics of the graph under some labels. */
    ghost function Exactly(lab: Labels): View
      reads this
    {
      View(lab, IncidentPerShard(edges, lab, shardNum), CrossEdges(edges, lab),
           MinFrom(IncidentPerShard(edges, lab, shardNum)))
    }
  }
}
