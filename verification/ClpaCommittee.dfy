/** The supervisor side of the partitioner: block reports grow the graph, and each epoch runs the
    partitioner, remembers what it changed, and starts a fresh graph from what is remembered. */
module ClpaCommittee {
  import opened ClpaGraph
  import opened ClpaPartitioner

  datatype Report = Report(innerShardTxs: seq<Edge>, relay2Txs: seq<Edge>)

  function Route(modified: Labels, hash: Vertex -> nat, x: Vertex): nat {
    if x in modified then modified[x] else hash(x)
  }

  /** Every labelled vertex carries the label it is routed by. */
  ghost predicate Agree(modified: Labels, lab: Labels, hash: Vertex -> nat) {
    && modified.Keys <= lab.Keys
    && forall x :: x in lab ==> lab[x] == Route(modified, hash, x)
  }

  lemma AgreeLabelled(modified: Labels, lab: Labels, hash: Vertex -> nat, x: Vertex)
    requires Agree(modified, lab, hash)
    ensures Agree(modified, Labelled(lab, x, hash(x)), hash)
  {
  }

  /** Laying the same changes over both sides keeps them in agreement, whatever the changes are. */
  lemma AgreeOverlay(modified: Labels, lab: Labels, hash: Vertex -> nat, res: Labels)
    requires Agree(modified, lab, hash)
    ensures Agree(modified + res, lab + res, hash)
    ensures forall x :: x in lab + res ==> Route(modified + res, hash, x) == (lab + res)[x]
    ensures forall x :: x !in res ==> Route(modified + res, hash, x) == Route(modified, hash, x)
  {
  }

  lemma SliceStep(base: seq<Edge>, es: seq<Edge>, i: nat)
    requires i < |es|
    ensures base + es[..i] + [es[i]] == base + es[..i + 1]
  {
  }

  lemma SliceEnds(base: seq<Edge>, es: seq<Edge>)
    ensures base + es[..0] == base && base + es[..|es|] == base + es
  {
    assert es[..|es|] == es;
  }

  class CLPACommitteeModule {
    var clpaGraph: CLPAState
    var modifiedMap: Labels
    const shardNum: nat
    const addr2Shard: Vertex -> nat

    /** The router's view of an address. */
    function FetchModifiedMap(x: Vertex): nat
      reads this
    {
      Route(modifiedMap, addr2Shard, x)
    }

    /** Router and partitioner agree on every vertex the partitioner has labelled. */
    ghost predicate Valid()
      reads this, clpaGraph
    {
      && clpaGraph.Valid()
      && clpaGraph.shardNum == shardNum && clpaGraph.addr2Shard == addr2Shard
      && Agree(modifiedMap, clpaGraph.partitionMap, addr2Shard)
    }

    constructor (shards: nat, hashShard: Vertex -> nat)
      requires shards > 0 && forall x :: hashShard(x) < shards
      ensures Valid() && fresh(clpaGraph) && modifiedMap == map[]
    {
      shardNum, addr2Shard, modifiedMap := shards, hashShard, map[];
      clpaGraph := new CLPAState(0.5, 100, shards, hashShard);
    }

    method HandleBlockInfo(b: Report)
      requires Valid()
      modifies clpaGraph
      ensures Valid()
      ensures clpaGraph.edges == old(clpaGraph.edges) + b.innerShardTxs + b.relay2Txs
    {
      AddEdges(b.innerShardTxs);
      AddEdges(b.relay2Txs);
    }

    method AddEdges(es: seq<Edge>)
      requires Valid()
      modifies clpaGraph
      ensures Valid()
      ensures clpaGraph.edges == old(clpaGraph.edges) + es
    {
      ghost var base := clpaGraph.edges;
      SliceEnds(base, es);
      for i := 0 to |es|
        invariant Valid()
        invariant clpaGraph.edges == base + es[..i]
      {
        AddOne(es[i]);
        SliceStep(base, es, i);
      }
    }

    method AddOne(e: Edge)
      requires Valid()
      modifies clpaGraph
      ensures Valid()
      ensures clpaGraph.edges == old(clpaGraph.edges) + [e]
    {
      ghost var lab := clpaGraph.partitionMap;
      AgreeLabelled(modifiedMap, lab, addr2Shard, e.u);
      AgreeLabelled(modifiedMap, Labelled(lab, e.u, addr2Shard(e.u)), addr2Shard, e.v);
      clpaGraph.AddEdge(e.u, e.v);
    }

    /** One epoch. Every address the finished graph had labelled is routed to the label the partitioner
        left it with, every other address as before, and the fresh graph agrees with the router again. */
    method RunEpoch() returns (sent: Labels)
      requires Valid()
      modifies this`clpaGraph, this`modifiedMap, clpaGraph
      ensures Valid() && fresh(clpaGraph) && clpaGraph.edges == []
      ensures modifiedMap == old(modifiedMap) + sent
      ensures old(clpaGraph).partitionMap == old(clpaGraph.partitionMap) + sent
      ensures forall x :: x in old(clpaGraph).partitionMap ==> FetchModifiedMap(x) == old(clpaGraph).partitionMap[x]
      ensures forall x :: x !in sent ==> FetchModifiedMap(x) == old(FetchModifiedMap(x))
    {
      var cross;
      ghost var sweeps, kept;
      ghost var lab := clpaGraph.partitionMap;
      sent, cross, sweeps, kept := clpaGraph.Partition();
      AgreeOverlay(modifiedMap, lab, addr2Shard, sent);
      modifiedMap := modifiedMap + sent;
      Reset();
    }

    method Reset()
      requires clpaGraph.Shaped() && shardNum == clpaGraph.shardNum && clpaGraph.addr2Shard == addr2Shard
      requires Agree(modifiedMap, clpaGraph.partitionMap, addr2Shard)
      modifies this`clpaGraph
      ensures Valid() && fresh(clpaGraph) && clpaGraph.edges == [] && clpaGraph.partitionMap == modifiedMap
    {
      var lab := modifiedMap;
      assert forall x :: x in lab ==> x in clpaGraph.partitionMap && lab[x] == clpaGraph.partitionMap[x];
      clpaGraph := new CLPAState(0.5, 100, shardNum, addr2Shard);
      clpaGraph.SeedLabels(lab);
    }
  }
}
