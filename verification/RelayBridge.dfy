/** One node's operations make exactly the steps that the run of all shards is built from. */
module RelayBridge {
  import opened Common
  import opened Ledger
  import opened Chain
  import R = Relay
  import RelayNode
  import ChainNode

  /** The node of shard s in the run has the state, the index and the queue of this chain. */
  ghost predicate Mirrors(bc: ChainNode.BlockChain, node: R.Node)
    reads bc, bc.pool
  {
    && node.accounts == bc.current.header.stateRoot && node.executed == bc.executed
    && node.queue == bc.pool.txQueue
  }

  lemma ProposalMatches(sys: R.System, s: Shard, max: nat, p: Placement, packed: seq<Tx>, rest: seq<Tx>)
    requires s < |sys.nodes| && sys.nodes[s].proposal.None?
    requires packed + rest == sys.nodes[s].queue
    requires |packed| == if |sys.nodes[s].queue| < max then |sys.nodes[s].queue| else max
    ensures var node := R.Next(sys, R.Propose(s, max), p).nodes[s];
            && node.queue == rest && node.proposal == Some(Fresh(packed, sys.nodes[s].executed))
            && node.accounts == sys.nodes[s].accounts && node.executed == sys.nodes[s].executed
  {
    assert (packed + rest)[..|packed|] == packed && (packed + rest)[|packed|..] == rest;
  }

  lemma FreshIsIndexed(packed: seq<Tx>, executed: set<Bytes>)
    ensures Indexed(Fresh(packed, executed)) == HashSet(Fresh(packed, executed))
  {
    FreshKeepsAll(packed, executed);
  }

  lemma CommitMatches(mid: R.System, s: Shard, p: Placement, body: seq<Tx>, packed: seq<Tx>)
    requires s < |mid.nodes| && mid.nodes[s].proposal == Some(body) && body == Fresh(packed, mid.nodes[s].executed)
    ensures var node := R.Next(mid, R.Commit(s), p).nodes[s];
            && node.accounts == Exec(mid.nodes[s].accounts, body, s, p)
            && node.executed == mid.nodes[s].executed + Indexed(body)
            && node.queue == Without(mid.nodes[s].queue, HashSet(body)) && node.proposal.None?
  {
    var executed := mid.nodes[s].executed;
    FreshIsIndexed(packed, executed);
    R.CommitIsExecution(mid, s, body, p);
    var done := R.CommitBody(mid, s, body, p);
    assert R.Next(mid, R.Commit(s), p) == R.Finish(done, s, body);
    assert done.nodes[s].executed == executed + Indexed(body);
  }

  /** A leader's block, generated and added on the same head. */
  method MakeBlock(bc: ChainNode.BlockChain, max: nat, time: int, miner: int)
    returns (b: Block, ghost packed: seq<Tx>, ghost rest: seq<Tx>)
    modifies bc, bc.pool
    ensures packed + rest == old(bc.pool.txQueue)
    ensures |packed| == if |old(bc.pool.txQueue)| < max then |old(bc.pool.txQueue)| else max
    ensures b.body == Fresh(packed, old(bc.executed)) && bc.executed == old(bc.executed) + Indexed(b.body)
    ensures bc.current.header.stateRoot == Exec(old(bc.current.header.stateRoot), b.body, bc.shard, bc.placement)
    ensures bc.pool.txQueue == Without(rest, HashSet(b.body)) && bc.placement == old(bc.placement)
  {
    b, packed := bc.GenerateBlock(max, time, miner);
    rest := bc.pool.txQueue;
    var v := bc.AddBlock(Some(b));
    assert bc.View() == Append(old(bc.View()), b);
  }

  /** Generating, adding and relaying one block on a leader makes exactly the proposal and the commit of the
      run: same body, same state, index and queue, and the same parcels on the network. */
  method ProposeAndCommit(bc: ChainNode.BlockChain, max: nat, time: int, miner: int, shards: nat, ghost sys: R.System)
    returns (b: Block, panicked: bool, msgs: map<Shard, seq<Tx>>)
    requires bc.shard < shards == |sys.nodes| && forall a :: bc.placement.Of(a) < shards
    requires Mirrors(bc, sys.nodes[bc.shard]) && sys.nodes[bc.shard].proposal.None?
    modifies bc, bc.pool
    ensures bc.placement == old(bc.placement)
    ensures var (s, p) := (bc.shard, bc.placement);
            var mid := R.Next(sys, R.Propose(s, max), p);
            && mid.nodes[s].proposal == Some(b.body)
            && Mirrors(bc, R.Next(mid, R.Commit(s), p).nodes[s])
            && (!panicked ==> forall q :: q in R.Next(mid, R.Commit(s), p).sent <==>
                  q in sys.sent || (q.dest in msgs && q.tx in msgs[q.dest]))
  {
    ghost var s, p := bc.shard, bc.placement;
    ghost var packed, rest;
    b, packed, rest := MakeBlock(bc, max, time, miner);
    ghost var mid := R.Next(sys, R.Propose(s, max), p);
    ProposalMatches(sys, s, max, p, packed, rest);
    CommitMatches(mid, s, p, b.body, packed);
    panicked, msgs := RelayNode.SendCommitted(b.body, bc.shard, bc.placement, bc.pool, shards, mid);
  }
}
