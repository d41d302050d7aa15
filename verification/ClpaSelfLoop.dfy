/** A graph with a self-loop on which the partitioner makes a move that its fast update gets wrong. */
module ClpaSelfLoop {
  import opened ClpaGraph
  import opened ClpaScore

  const A := Vertex("a")
  const B := Vertex("b")
  const C := Vertex("c")

  /** Vertex A has a self-loop, company in its shard and three edges to the other shard. */
  const LOOPED: seq<Edge> := [Edge(C, B), Edge(A, A), Edge(A, B), Edge(A, B), Edge(A, B)]
  const LOOPED_LABELS: Labels := map[A := 0, B := 1, C := 0]

  lemma LoopedNeighbours()
    ensures Adjacent(LOOPED, A) == [A, A, B, B, B]
  {
    var es := LOOPED;
    assert es[..4][..3] == es[..3] && es[..3][..2] == es[..2] && es[..2][..1] == es[..1] && es[..1][..0] == [];
    assert Adjacent(es[..1], A) == [];
    assert Adjacent(es[..2], A) == [A, A];
    assert Adjacent(es[..3], A) == [A, A, B];
    assert Adjacent(es[..4], A) == [A, A, B, B];
  }

  /** The fast update goes wrong on a move the partitioner may make: both shards have edges, the vertex is
      not alone, and it has a neighbour where it goes. */
  lemma SelfLoopDefeatsFastUpdate()
    ensures var (es, lab) := (LOOPED, LOOPED_LABELS);
            && MoveAllowed({A, B, C}, es, lab, Move(A, 0, 1))
            && Incident(es, lab, 0) > 0 && Incident(es, lab, 1) > 0
            && FastWeights(es, lab, A, 1, 2) != IncidentPerShard(es, lab[A := 1], 2)
            && FastCross(es, lab, A, 1) != CrossEdges(es, lab[A := 1])
  {
    var es, lab, V := LOOPED, LOOPED_LABELS, {A, B, C};
    LoopedNeighbours();
    assert Adjacent(es, A)[0] == A && Adjacent(es, A)[2] == B;
    NeighborShardHasEdges(es, lab, A, A);
    NeighborShardHasEdges(es, lab, A, B);
    assert es[1] == Edge(A, A);
    FastAgreesWithRecount(es, lab, A, 1, 2);
    assert Members(V, lab, 0) == {A, C};
  }

  /** On the graph with the self-loop, at the usual penalty, the other shard scores best for the looped
      vertex, so the partitioner does move it. */
  lemma LoopedVertexIsMoved()
    ensures var (nbrs, lab) := (Adjacent(LOOPED, A), LOOPED_LABELS);
            && CountLabel(nbrs, lab, 0) > 0 && CountLabel(nbrs, lab, 1) > 0
            && IncidentPerShard(LOOPED, lab, 2) == [5, 4]
            && Less(FLOOR, ShardScore(nbrs, lab, 1, 0.5, [5, 4], 4))
            && Less(ShardScore(nbrs, lab, 0, 0.5, [5, 4], 4), ShardScore(nbrs, lab, 1, 0.5, [5, 4], 4))
  {
    var nbrs, lab := Adjacent(LOOPED, A), LOOPED_LABELS;
    LoopedNeighbours();
    LoopedCounts();
    assert ShardScore(nbrs, lab, 0, 0.5, [5, 4], 4) == ScoreOf(2, 5, 0.5, 5, 4) == Finite(0.15);
    assert ShardScore(nbrs, lab, 1, 0.5, [5, 4], 4) == ScoreOf(3, 5, 0.5, 4, 4) == Finite(0.3);
  }

  lemma LoopedCounts()
    ensures CountLabel([A, A, B, B, B], LOOPED_LABELS, 0) == 2
    ensures CountLabel([A, A, B, B, B], LOOPED_LABELS, 1) == 3
    ensures IncidentPerShard(LOOPED, LOOPED_LABELS, 2) == [5, 4]
  {
    forall k | 0 <= k < 2
      ensures CountLabel([A, A, B, B, B], LOOPED_LABELS, k) == (if k == 0 then 2 else 3)
      ensures Incident(LOOPED, LOOPED_LABELS, k) == (if k == 0 then 5 else 4)
    {
      LoopedNeighbourCount(k);
      LoopedIncident(k);
    }
  }

  lemma LoopedIncident(k: nat)
    requires k < 2
    ensures Incident(LOOPED, LOOPED_LABELS, k) == if k == 0 then 5 else 4
  {
    var es, lab := LOOPED, LOOPED_LABELS;
    assert es[..4][..3] == es[..3] && es[..3][..2] == es[..2] && es[..2][..1] == es[..1] && es[..1][..0] == [];
    assert Incident(es[..1], lab, k) == 1;
    assert Incident(es[..2], lab, k) == if k == 0 then 2 else 1;
    assert Incident(es[..3], lab, k) == if k == 0 then 3 else 2;
    assert Incident(es[..4], lab, k) == if k == 0 then 4 else 3;
  }

  lemma LoopedNeighbourCount(k: nat)
    requires k < 2
    ensures CountLabel([A, A, B, B, B], LOOPED_LABELS, k) == if k == 0 then 2 else 3
  {
    var lab, xs := LOOPED_LABELS, [A, A, B, B, B];
    assert xs[..4][..3] == xs[..3] && xs[..3][..2] == xs[..2] && xs[..2][..1] == xs[..1] && xs[..1][..0] == [];
    assert CountLabel(xs[..1], lab, k) == if k == 0 then 1 else 0;
    assert CountLabel(xs[..2], lab, k) == if k == 0 then 2 else 0;
    assert CountLabel(xs[..3], lab, k) == if k == 0 then 2 else 1;
    assert CountLabel(xs[..4], lab, k) == 2;
  }
}
