/** What the shard statistics of constrained label propagation mean.

    An account graph is the history of its edges. The partitioner only ever sees adjacency lists,
    its labels and its running counters; the definitions below say what those counters count, edge
    by edge, and the lemmas connect both the slow recount and the fast update to that meaning. */
module ClpaGraph {
  datatype Vertex = Vertex(addr: string)
  type Labels = map<Vertex, nat>
  datatype Edge = Edge(u: Vertex, v: Vertex)

  const MAX_INT := 0x7FFF_FFFF_FFFF_FFFF

  /** Reading a label that is absent yields the zero value. */
  function Label(lab: Labels, x: Vertex): nat {
    if x in lab then lab[x] else 0
  }

  function Ind(b: bool): nat {
    if b then 1 else 0
  }

  // ----- The reference meaning: counting edges -----

  function Ends(es: seq<Edge>): set<Vertex> {
    if es == [] then {} else Ends(es[..|es| - 1]) + {es[|es| - 1].u, es[|es| - 1].v}
  }

  /** The adjacency list that one append per end and edge builds. */
  function Adjacent(es: seq<Edge>, x: Vertex): seq<Vertex> {
    if es == [] then [] else
      var e := es[|es| - 1];
      Adjacent(es[..|es| - 1], x)
      + (if e.u == x then [e.v] else [])
      + (if e.v == x then [e.u] else [])
  }

  /** Number of edges with at least one end labelled k: the total weight of edges of shard k. */
  function Incident(es: seq<Edge>, lab: Labels, k: nat): nat {
    if es == [] then 0 else
      var e := es[|es| - 1];
      Incident(es[..|es| - 1], lab, k) + Ind(Label(lab, e.u) == k || Label(lab, e.v) == k)
  }

  /** Number of edges whose two ends carry different labels. */
  function CrossEdges(es: seq<Edge>, lab: Labels): nat {
    if es == [] then 0 else
      var e := es[|es| - 1];
      CrossEdges(es[..|es| - 1], lab) + Ind(Label(lab, e.u) != Label(lab, e.v))
  }

  function Loops(es: seq<Edge>, x: Vertex): nat {
    if es == [] then 0 else
      Loops(es[..|es| - 1], x) + Ind(es[|es| - 1] == Edge(x, x))
  }

  function IncidentPerShard(es: seq<Edge>, lab: Labels, n: nat): (w: seq<int>)
    ensures |w| == n && forall k :: 0 <= k < n ==> w[k] == Incident(es, lab, k)
  {
    seq(n, k requires 0 <= k => Incident(es, lab, k))
  }

  /** The running minimum that starts from the largest machine integer. */
  function MinFrom(w: seq<int>): (m: int)
    ensures m <= MAX_INT && (forall k :: 0 <= k < |w| ==> m <= w[k])
    ensures m == MAX_INT || m in w
  {
    if w == [] then MAX_INT else
      var m := MinFrom(w[..|w| - 1]);
      if m > w[|w| - 1] then w[|w| - 1] else m
  }

  lemma {:induction false} LoopsPositive(es: seq<Edge>, x: Vertex)
    ensures Loops(es, x) > 0 <==> Edge(x, x) in es
  {
    if es != [] {
      LoopsPositive(es[..|es| - 1], x);
      assert es == es[..|es| - 1] + [es[|es| - 1]];
    }
  }

  lemma {:induction false} NeighborsAreEnds(es: seq<Edge>, x: Vertex)
    ensures forall y :: y in Adjacent(es, x) ==> x in Ends(es) && y in Ends(es)
    ensures x in Ends(es) <==> Adjacent(es, x) != []
  {
    if es != [] {
      NeighborsAreEnds(es[..|es| - 1], x);
    }
  }

  /** A neighbour's shard always has an incident edge. */
  lemma {:induction false} NeighborShardHasEdges(es: seq<Edge>, lab: Labels, x: Vertex, y: Vertex)
    requires y in Adjacent(es, x)
    ensures Incident(es, lab, Label(lab, y)) > 0
  {
    var e := es[|es| - 1];
    if y in Adjacent(es[..|es| - 1], x) {
      NeighborShardHasEdges(es[..|es| - 1], lab, x, y);
    } else {
      assert y == e.v || y == e.u;
    }
  }

  // ----- The slow recount: every half-edge, grouped by the vertex it leaves -----

  function CountLabel(xs: seq<Vertex>, lab: Labels, k: nat): nat {
    if xs == [] then 0 else
      CountLabel(xs[..|xs| - 1], lab, k) + Ind(Label(lab, xs[|xs| - 1]) == k)
  }

  lemma {:induction false} CountLabelPositive(xs: seq<Vertex>, lab: Labels, y: Vertex)
    requires y in xs
    ensures CountLabel(xs, lab, Label(lab, y)) > 0
  {
    if xs[|xs| - 1] != y {
      assert y in xs[..|xs| - 1];
      CountLabelPositive(xs[..|xs| - 1], lab, y);
    }
  }

  /** Half-edges that leave a vertex of S outside shard k and arrive in shard k. */
  function HalfCross(es: seq<Edge>, lab: Labels, S: set<Vertex>, k: nat): nat {
    if es == [] then 0 else
      HalfCross(es[..|es| - 1], lab, S, k) + EdgeCross(es[|es| - 1], lab, S, k)
  }

  function EdgeCross(e: Edge, lab: Labels, S: set<Vertex>, k: nat): nat {
    var (a, b) := (Label(lab, e.u), Label(lab, e.v));
    Ind(e.u in S && b == k && a != k) + Ind(e.v in S && a == k && b != k)
  }

  /** Half-edges that leave a vertex of S and stay within shard k. */
  function HalfInner(es: seq<Edge>, lab: Labels, S: set<Vertex>, k: nat): nat {
    if es == [] then 0 else
      HalfInner(es[..|es| - 1], lab, S, k) + EdgeInner(es[|es| - 1], lab, S, k)
  }

  function EdgeInner(e: Edge, lab: Labels, S: set<Vertex>, k: nat): nat {
    var (a, b) := (Label(lab, e.u), Label(lab, e.v));
    Ind(e.u in S && a == b == k) + Ind(e.v in S && a == b == k)
  }

  /** Crossing half-edges that leave a vertex of S and arrive in some shard below n. */
  function HalfCrossBelow(es: seq<Edge>, lab: Labels, S: set<Vertex>, n: nat): nat {
    if es == [] then 0 else
      var e := es[|es| - 1];
      var (a, b) := (Label(lab, e.u), Label(lab, e.v));
      HalfCrossBelow(es[..|es| - 1], lab, S, n) + Ind(e.u in S && b < n && a != b) + Ind(e.v in S && a < n && a != b)
  }

  lemma {:induction false} HalfEmpty(es: seq<Edge>, lab: Labels, k: nat)
    ensures HalfCross(es, lab, {}, k) == 0 && HalfInner(es, lab, {}, k) == 0
  {
    if es != [] {
      HalfEmpty(es[..|es| - 1], lab, k);
    }
  }

  lemma CountAdjacent(es: seq<Edge>, lab: Labels, x: Vertex, k: nat)
    requires es != []
    ensures var e := es[|es| - 1];
            CountLabel(Adjacent(es, x), lab, k) ==
            CountLabel(Adjacent(es[..|es| - 1], x), lab, k)
            + Ind(e.u == x && Label(lab, e.v) == k) + Ind(e.v == x && Label(lab, e.u) == k)
  {
    var init, e := es[..|es| - 1], es[|es| - 1];
    var first := if e.u == x then [e.v] else [];
    var second := if e.v == x then [e.u] else [];
    CountLabelAppend(Adjacent(init, x), first, lab, k);
    CountLabelAppend(Adjacent(init, x) + first, second, lab, k);
  }

  /** Visiting one more vertex adds exactly its adjacency list. */
  lemma {:induction false} HalfVisit(es: seq<Edge>, lab: Labels, S: set<Vertex>, x: Vertex, k: nat)
    requires x !in S
    ensures HalfCross(es, lab, S + {x}, k)
         == HalfCross(es, lab, S, k) + (if Label(lab, x) != k then CountLabel(Adjacent(es, x), lab, k) else 0)
    ensures HalfInner(es, lab, S + {x}, k)
         == HalfInner(es, lab, S, k) + (if Label(lab, x) == k then CountLabel(Adjacent(es, x), lab, k) else 0)
  {
    if es != [] {
      HalfVisit(es[..|es| - 1], lab, S, x, k);
      CountAdjacent(es, lab, x, k);
      EdgeVisit(es[|es| - 1], lab, S, x, k);
    }
  }

  lemma EdgeVisit(e: Edge, lab: Labels, S: set<Vertex>, x: Vertex, k: nat)
    requires x !in S
    ensures var more := Ind(e.u == x && Label(lab, e.v) == k) + Ind(e.v == x && Label(lab, e.u) == k);
            && EdgeCross(e, lab, S + {x}, k) == EdgeCross(e, lab, S, k) + (if Label(lab, x) != k then more else 0)
            && EdgeInner(e, lab, S + {x}, k) == EdgeInner(e, lab, S, k) + (if Label(lab, x) == k then more else 0)
  {
  }

  lemma CountLabelAppend(xs: seq<Vertex>, ys: seq<Vertex>, lab: Labels, k: nat)
    requires |ys| <= 1
    ensures CountLabel(xs + ys, lab, k) == CountLabel(xs, lab, k) + CountLabel(ys, lab, k)
  {
    if ys == [] {
      assert xs + ys == xs;
    } else {
      assert (xs + ys)[..|xs + ys| - 1] == xs;
    }
  }

  /** Handshake: once every end is visited, halving the inner half-edges yields the edge count. */
  lemma {:induction false} Handshake(es: seq<Edge>, lab: Labels, S: set<Vertex>, k: nat)
    requires Ends(es) <= S
    ensures HalfInner(es, lab, S, k) % 2 == 0
    ensures HalfCross(es, lab, S, k) + HalfInner(es, lab, S, k) / 2 == Incident(es, lab, k)
  {
    if es != [] {
      Handshake(es[..|es| - 1], lab, S, k);
    }
  }

  lemma {:induction false} HalfCrossBelowStep(es: seq<Edge>, lab: Labels, S: set<Vertex>, n: nat)
    ensures HalfCrossBelow(es, lab, S, 0) == 0
    ensures HalfCrossBelow(es, lab, S, n + 1) == HalfCrossBelow(es, lab, S, n) + HalfCross(es, lab, S, n)
  {
    if es != [] {
      HalfCrossBelowStep(es[..|es| - 1], lab, S, n);
    }
  }

  /** Every crossing edge is seen from both ends. */
  lemma {:induction false} CrossSeenTwice(es: seq<Edge>, lab: Labels, S: set<Vertex>, n: nat)
    requires Ends(es) <= S
    requires forall x :: x in Ends(es) ==> Label(lab, x) < n
    ensures HalfCrossBelow(es, lab, S, n) == 2 * CrossEdges(es, lab)
  {
    if es != [] {
      CrossSeenTwice(es[..|es| - 1], lab, S, n);
    }
  }

  // ----- The fast update: what one vertex's move changes -----

  function FastStep(c: nat, before: nat, after: nat, k: nat): int {
    Ind(k == after && c != after) as int - Ind(k == before && (c == after || c != before))
  }

  function FastDelta(xs: seq<Vertex>, lab: Labels, before: nat, after: nat, k: nat): int {
    if xs == [] then 0 else
      FastDelta(xs[..|xs| - 1], lab, before, after, k) + FastStep(Label(lab, xs[|xs| - 1]), before, after, k)
  }

  function FastCrossStep(c: nat, before: nat, after: nat): int {
    if c == after then -1 else if c == before then 1 else 0
  }

  function FastCrossDelta(xs: seq<Vertex>, lab: Labels, before: nat, after: nat): int {
    if xs == [] then 0 else
      FastCrossDelta(xs[..|xs| - 1], lab, before, after) + FastCrossStep(Label(lab, xs[|xs| - 1]), before, after)
  }

  lemma FastAppend(xs: seq<Vertex>, ys: seq<Vertex>, lab: Labels, before: nat, after: nat, k: nat)
    requires |ys| <= 1
    ensures FastDelta(xs + ys, lab, before, after, k)
         == FastDelta(xs, lab, before, after, k) + FastDelta(ys, lab, before, after, k)
    ensures FastCrossDelta(xs + ys, lab, before, after)
         == FastCrossDelta(xs, lab, before, after) + FastCrossDelta(ys, lab, before, after)
  {
    if ys == [] {
      assert xs + ys == xs;
    } else {
      assert (xs + ys)[..|xs + ys| - 1] == xs;
    }
  }

  lemma FastAdjacent(es: seq<Edge>, lab: Labels, x: Vertex, before: nat, after: nat, k: nat)
    requires es != []
    ensures var e := es[|es| - 1];
            FastDelta(Adjacent(es, x), lab, before, after, k) ==
            FastDelta(Adjacent(es[..|es| - 1], x), lab, before, after, k)
            + (if e.u == x then FastStep(Label(lab, e.v), before, after, k) else 0)
            + (if e.v == x then FastStep(Label(lab, e.u), before, after, k) else 0)
    ensures var e := es[|es| - 1];
            FastCrossDelta(Adjacent(es, x), lab, before, after) ==
            FastCrossDelta(Adjacent(es[..|es| - 1], x), lab, before, after)
            + (if e.u == x then FastCrossStep(Label(lab, e.v), before, after) else 0)
            + (if e.v == x then FastCrossStep(Label(lab, e.u), before, after) else 0)
  {
    var init, e := es[..|es| - 1], es[|es| - 1];
    var first := if e.u == x then [e.v] else [];
    var second := if e.v == x then [e.u] else [];
    FastAppend(Adjacent(init, x), first, lab, before, after, k);
    FastAppend(Adjacent(init, x) + first, second, lab, before, after, k);
  }

  /** The fast weights are exact up to the self-loops of the moved vertex. */
  lemma {:induction false} FastWeightError(es: seq<Edge>, lab: Labels, x: Vertex, after: nat, k: nat)
    requires Label(lab, x) != after
    ensures var (lab', before) := (lab[x := after], Label(lab, x));
            Incident(es, lab', k) == Incident(es, lab, k) + FastDelta(Adjacent(es, x), lab', before, after, k)
                                   + (if k == before || k == after then Loops(es, x) else 0)
  {
    if es != [] {
      FastWeightError(es[..|es| - 1], lab, x, after, k);
      FastAdjacent(es, lab[x := after], x, Label(lab, x), after, k);
    }
  }

  /** The fast crossing count is exact up to the self-loops of the moved vertex. */
  lemma {:induction false} FastCrossError(es: seq<Edge>, lab: Labels, x: Vertex, after: nat)
    requires Label(lab, x) != after
    ensures var (lab', before) := (lab[x := after], Label(lab, x));
            CrossEdges(es, lab') == CrossEdges(es, lab) + FastCrossDelta(Adjacent(es, x), lab', before, after)
                                  + 2 * Loops(es, x)
  {
    if es != [] {
      FastCrossError(es[..|es| - 1], lab, x, after);
      FastAdjacent(es, lab[x := after], x, Label(lab, x), after, 0);
      CrossStep(es[|es| - 1], lab, x, after);
    }
  }

  /** What the move of x does to one edge. */
  lemma CrossStep(e: Edge, lab: Labels, x: Vertex, after: nat)
    requires Label(lab, x) != after
    ensures var (lab', before) := (lab[x := after], Label(lab, x));
            Ind(Label(lab', e.u) != Label(lab', e.v)) as int ==
            Ind(Label(lab, e.u) != Label(lab, e.v))
            + (if e.u == x then FastCrossStep(Label(lab', e.v), before, after) else 0)
            + (if e.v == x then FastCrossStep(Label(lab', e.u), before, after) else 0)
            + 2 * Ind(e == Edge(x, x))
  {
  }

  /** The statistics that the fast update leaves, started from exact ones. */
  function FastWeights(es: seq<Edge>, lab: Labels, x: Vertex, after: nat, n: nat): (w: seq<int>)
    ensures |w| == n
    ensures forall k :: 0 <= k < n ==>
              w[k] == Incident(es, lab, k) + FastDelta(Adjacent(es, x), lab[x := after], Label(lab, x), after, k)
  {
    seq(n, k requires 0 <= k => Incident(es, lab, k)
                              + FastDelta(Adjacent(es, x), lab[x := after], Label(lab, x), after, k))
  }

  function FastCross(es: seq<Edge>, lab: Labels, x: Vertex, after: nat): int {
    CrossEdges(es, lab) + FastCrossDelta(Adjacent(es, x), lab[x := after], Label(lab, x), after)
  }

  /** For every graph, labelling and move, the fast update agrees with the recount exactly when the
      moved vertex has no self-loop. */
  lemma FastAgreesWithRecount(es: seq<Edge>, lab: Labels, x: Vertex, after: nat, n: nat)
    requires Label(lab, x) != after && Label(lab, x) < n && after < n
    ensures FastWeights(es, lab, x, after, n) == IncidentPerShard(es, lab[x := after], n)
            <==> Edge(x, x) !in es
    ensures FastCross(es, lab, x, after) == CrossEdges(es, lab[x := after]) <==> Edge(x, x) !in es
  {
    var fast, slow := FastWeights(es, lab, x, after, n), IncidentPerShard(es, lab[x := after], n);
    forall k | 0 <= k < n
      ensures slow[k] == fast[k] + (if k == Label(lab, x) || k == after then Loops(es, x) else 0)
    {
      FastWeightError(es, lab, x, after, k);
    }
    FastCrossError(es, lab, x, after);
    LoopsPositive(es, x);
    if Loops(es, x) > 0 {
      assert fast[after] != slow[after];
    }
  }

  lemma FastExact(es: seq<Edge>, lab: Labels, x: Vertex, after: nat, w: seq<int>, w': seq<int>, cross: int, cross': int)
    requires Label(lab, x) != after && Label(lab, x) < |w| == |w'| && after < |w|
    requires forall k :: 0 <= k < |w| ==>
               w'[k] == w[k] + FastDelta(Adjacent(es, x), lab[x := after], Label(lab, x), after, k)
    requires cross' == cross + FastCrossDelta(Adjacent(es, x), lab[x := after], Label(lab, x), after)
    requires w == IncidentPerShard(es, lab, |w|) && cross == CrossEdges(es, lab)
    ensures w' == IncidentPerShard(es, lab[x := after], |w|) && cross' == CrossEdges(es, lab[x := after])
            <==> Edge(x, x) !in es
  {
    assert w' == FastWeights(es, lab, x, after, |w|);
    FastAgreesWithRecount(es, lab, x, after, |w|);
  }

  // ----- Vertex counts and the history of moves -----

  ghost function Members(V: set<Vertex>, lab: Labels, k: nat): set<Vertex> {
    set x | x in V && Label(lab, x) == k
  }

  lemma MemberElsewhere(V: set<Vertex>, lab: Labels, x: Vertex, after: nat, k: nat)
    requires x in V && Label(lab, x) != after
    ensures Members(V, lab[x := after], k) - {x} == Members(V, lab, k) - {x}
    ensures x in Members(V, lab[x := after], k) <==> k == after
    ensures x in Members(V, lab, k) <==> k == Label(lab, x)
  {
    forall y | y != x
      ensures Label(lab[x := after], y) == Label(lab, y)
    {
    }
  }

  lemma MemberMoves(V: set<Vertex>, lab: Labels, x: Vertex, after: nat, k: nat)
    requires x in V && Label(lab, x) != after
    ensures |Members(V, lab[x := after], k)|
         == |Members(V, lab, k)| + Ind(k == after) - Ind(k == Label(lab, x))
  {
    var was, now := Members(V, lab, k), Members(V, lab[x := after], k);
    MemberElsewhere(V, lab, x, after, k);
    if k == after {
      assert now == was + {x};
    } else if k == Label(lab, x) {
      assert was == now + {x};
    } else {
      assert now == was;
    }
  }

  lemma MemberAdds(V: set<Vertex>, lab: Labels, lab': Labels, x: Vertex, k: nat)
    requires x !in V && forall y :: y in V ==> Label(lab', y) == Label(lab, y)
    ensures |Members(V + {x}, lab', k)| == |Members(V, lab, k)| + Ind(Label(lab', x) == k)
  {
    var was, now := Members(V, lab, k), Members(V + {x}, lab', k);
    if Label(lab', x) == k {
      assert now == was + {x} && x !in was;
    } else {
      assert now == was;
    }
  }

  /** Each counter is the number of graph vertices that carry its label. */
  ghost predicate Counts(V: set<Vertex>, lab: Labels, counts: seq<int>) {
    forall k :: 0 <= k < |counts| ==> counts[k] == |Members(V, lab, k)|
  }

  lemma CountsAfterAdd(V: set<Vertex>, lab: Labels, lab': Labels, counts: seq<int>, x: Vertex)
    requires Counts(V, lab, counts) && Label(lab', x) < |counts|
    requires forall y :: y in V ==> Label(lab', y) == Label(lab, y)
    ensures Counts(V + {x}, lab', counts[Label(lab', x) := counts[Label(lab', x)] + 1]) <==> x !in V
  {
    var s := Label(lab', x);
    if x in V {
      assert V + {x} == V;
      assert Members(V, lab', s) == Members(V, lab, s);
    } else {
      forall k | 0 <= k < |counts|
        ensures |Members(V + {x}, lab', k)| == counts[k] + Ind(k == s)
      {
        MemberAdds(V, lab, lab', x, k);
      }
    }
  }

  lemma CountsAfterMove(V: set<Vertex>, lab: Labels, counts: seq<int>, x: Vertex, after: nat)
    requires Counts(V, lab, counts) && x in V && after < |counts|
    requires Label(lab, x) < |counts| && Label(lab, x) != after
    ensures var less := counts[Label(lab, x) := counts[Label(lab, x)] - 1];
            Counts(V, lab[x := after], less[after := less[after] + 1])
  {
    forall k | 0 <= k < |counts|
      ensures |Members(V, lab[x := after], k)| == counts[k] + Ind(k == after) - Ind(k == Label(lab, x))
    {
      MemberMoves(V, lab, x, after, k);
    }
  }

  // ----- Adjacency lists -----

  /** The adjacency map is the one the edge history describes. */
  ghost predicate Describes(adj: map<Vertex, seq<Vertex>>, es: seq<Edge>) {
    && adj.Keys == Ends(es)
    && forall x :: x in adj ==> adj[x] == Adjacent(es, x)
  }

  function ListOf(adj: map<Vertex, seq<Vertex>>, x: Vertex): seq<Vertex> {
    if x in adj then adj[x] else []
  }

  lemma ListIsAdjacent(adj: map<Vertex, seq<Vertex>>, es: seq<Edge>, x: Vertex)
    requires Describes(adj, es)
    ensures ListOf(adj, x) == Adjacent(es, x)
  {
    NeighborsAreEnds(es, x);
  }

  function AppendBoth(adj: map<Vertex, seq<Vertex>>, u: Vertex, v: Vertex): map<Vertex, seq<Vertex>> {
    var half := adj[u := ListOf(adj, u) + [v]];
    half[v := ListOf(half, v) + [u]]
  }

  lemma DescribesAppend(adj: map<Vertex, seq<Vertex>>, es: seq<Edge>, u: Vertex, v: Vertex)
    requires Describes(adj, es)
    ensures Describes(AppendBoth(adj, u, v), es + [Edge(u, v)])
    ensures Ends(es + [Edge(u, v)]) == Ends(es) + {u, v}
  {
    var full := AppendBoth(adj, u, v);
    assert (es + [Edge(u, v)])[..|es|] == es;
    assert full.Keys == adj.Keys + {u, v};
    forall x | x in full
      ensures full[x] == Adjacent(es + [Edge(u, v)], x)
    {
      ListIsAdjacent(adj, es, x);
    }
  }

  datatype Move = Move(x: Vertex, before: nat, after: nat)

  function Replay(lab: Labels, moves: seq<Move>): Labels {
    if moves == [] then lab else
      Replay(lab, moves[..|moves| - 1])[moves[|moves| - 1].x := moves[|moves| - 1].after]
  }

  function MovesOf(moves: seq<Move>, x: Vertex): nat {
    if moves == [] then 0 else
      MovesOf(moves[..|moves| - 1], x) + Ind(moves[|moves| - 1].x == x)
  }

  /** A move leaves the shard it starts from, goes to the shard of a neighbour, and never takes the
      last vertex of a shard. */
  ghost predicate MoveAllowed(V: set<Vertex>, es: seq<Edge>, lab: Labels, m: Move) {
    && m.x in V
    && m.before == Label(lab, m.x) != m.after
    && (exists y :: y in Adjacent(es, m.x) && Label(lab, y) == m.after)
    && |Members(V, lab, m.before)| > 1
  }

  ghost predicate MovesAllowed(V: set<Vertex>, es: seq<Edge>, lab: Labels, moves: seq<Move>) {
    moves == [] ||
    (&& MovesAllowed(V, es, lab, moves[..|moves| - 1])
     && MoveAllowed(V, es, Replay(lab, moves[..|moves| - 1]), moves[|moves| - 1]))
  }

  lemma MovesAllowedExtend(V: set<Vertex>, es: seq<Edge>, lab: Labels, moves: seq<Move>, m: Move)
    requires MovesAllowed(V, es, lab, moves) && MoveAllowed(V, es, Replay(lab, moves), m)
    ensures MovesAllowed(V, es, lab, moves + [m])
    ensures Replay(lab, moves + [m]) == Replay(lab, moves)[m.x := m.after]
    ensures forall x :: MovesOf(moves + [m], x) == MovesOf(moves, x) + Ind(m.x == x)
  {
    assert (moves + [m])[..|moves + [m]| - 1] == moves;
  }

  /** No shard that holds a vertex ever becomes empty, at any point of any allowed history. */
  lemma {:induction false} NoShardEmpties(V: set<Vertex>, es: seq<Edge>, lab: Labels, moves: seq<Move>, k: nat)
    requires MovesAllowed(V, es, lab, moves)
    requires |Members(V, lab, k)| > 0
    ensures |Members(V, Replay(lab, moves), k)| > 0
  {
    if moves != [] {
      var init, m := moves[..|moves| - 1], moves[|moves| - 1];
      NoShardEmpties(V, es, lab, init, k);
      MemberMoves(V, Replay(lab, init), m.x, m.after, k);
    }
  }

  /** What the sweeps keep between visits, relative to the labels they started from. */
  ghost predicate Progress(V: set<Vertex>, es: seq<Edge>, start: Labels, lab: Labels,
                           res: Labels, threshold: map<Vertex, nat>, moves: seq<Move>)
  {
    && lab == start + res
    && MovesAllowed(V, es, start, moves)
    && lab == Replay(start, moves)
    && forall x :: MovesOf(moves, x) == TimesMoved(threshold, x) <= 50
  }

  function TimesMoved(threshold: map<Vertex, nat>, x: Vertex): nat {
    if x in threshold then threshold[x] else 0
  }

  lemma ProgressMove(V: set<Vertex>, es: seq<Edge>, start: Labels, lab: Labels,
                     res: Labels, threshold: map<Vertex, nat>, moves: seq<Move>, m: Move)
    requires Progress(V, es, start, lab, res, threshold, moves)
    requires MoveAllowed(V, es, lab, m) && TimesMoved(threshold, m.x) < 50
    ensures Progress(V, es, start, lab[m.x := m.after], res[m.x := m.after],
                     threshold[m.x := TimesMoved(threshold, m.x) + 1], moves + [m])
  {
    MovesAllowedExtend(V, es, start, moves, m);
    assert lab[m.x := m.after] == start + res[m.x := m.after];
    var threshold' := threshold[m.x := TimesMoved(threshold, m.x) + 1];
    forall x
      ensures MovesOf(moves + [m], x) == TimesMoved(threshold', x) <= 50
    {
      assert MovesOf(moves, x) == TimesMoved(threshold, x) <= 50;
      assert MovesOf(moves + [m], x) == MovesOf(moves, x) + Ind(m.x == x);
    }
  }
}
