/** The relay step of the node that leads a shard, after a block has been added to the chain. */
module RelayNode {
  import opened Ledger
  import opened Pool
  import opened Relay

  datatype Report = Report(inner: seq<Tx>, relay1: seq<Tx>, relay2: seq<Tx>)

  function Marked(tx: Tx): Tx {
    tx.(relayed := true)
  }

  function InnerTxs(body: seq<Tx>, s: Shard, p: Placement): seq<Tx> {
    if body == [] then [] else
      var tx := body[|body| - 1];
      InnerTxs(body[..|body| - 1], s, p) + (if p.Of(tx.recipient) == s && !tx.relayed then [tx] else [])
  }

  function Relay1Txs(body: seq<Tx>, s: Shard, p: Placement): seq<Tx> {
    if body == [] then [] else
      var tx := body[|body| - 1];
      Relay1Txs(body[..|body| - 1], s, p) + (if p.Of(tx.recipient) != s then [Marked(tx)] else [])
  }

  function Relay2Txs(body: seq<Tx>, s: Shard, p: Placement): seq<Tx> {
    if body == [] then [] else
      var tx := body[|body| - 1];
      Relay2Txs(body[..|body| - 1], s, p) + (if p.Of(tx.recipient) == s && tx.relayed then [tx] else [])
  }

  /** The transaction is one of the body, marked as relayed. */
  ghost predicate ComesFrom(tx: Tx, body: seq<Tx>) {
    exists t :: t in body && tx == Marked(t)
  }

  /** The three reports split the block: each transaction is in exactly one of them. */
  lemma {:induction false} ReportsSplitBody(body: seq<Tx>, s: Shard, p: Placement)
    ensures |body| == |InnerTxs(body, s, p)| + |Relay1Txs(body, s, p)| + |Relay2Txs(body, s, p)|
    ensures forall tx :: tx in body ==>
              || tx in InnerTxs(body, s, p) || Marked(tx) in Relay1Txs(body, s, p) || tx in Relay2Txs(body, s, p)
    ensures forall tx :: tx in InnerTxs(body, s, p) ==> tx in body && !tx.relayed && p.Of(tx.recipient) == s
    ensures forall tx :: tx in Relay1Txs(body, s, p) ==> p.Of(tx.recipient) != s && ComesFrom(tx, body)
    ensures forall tx :: tx in Relay2Txs(body, s, p) ==> tx in body && tx.relayed && p.Of(tx.recipient) == s
  {
    if body != [] {
      var init, last := body[..|body| - 1], body[|body| - 1];
      ReportsSplitBody(init, s, p);
      assert body == init + [last];
      forall tx | tx in Relay1Txs(body, s, p)
        ensures p.Of(tx.recipient) != s && ComesFrom(tx, body)
      {
        if tx in Relay1Txs(init, s, p) {
          var t :| t in init && tx == Marked(t);
          assert t in body;
        } else {
          assert last in body && tx == Marked(last);
        }
      }
    }
  }

  lemma PrefixStep(body: seq<Tx>, i: nat, s: Shard, p: Placement)
    requires i < |body|
    ensures InnerTxs(body[..i + 1], s, p)
         == InnerTxs(body[..i], s, p) + (if p.Of(body[i].recipient) == s && !body[i].relayed then [body[i]] else [])
    ensures Relay1Txs(body[..i + 1], s, p)
         == Relay1Txs(body[..i], s, p) + (if p.Of(body[i].recipient) != s then [Marked(body[i])] else [])
    ensures Relay2Txs(body[..i + 1], s, p)
         == Relay2Txs(body[..i], s, p) + (if p.Of(body[i].recipient) == s && body[i].relayed then [body[i]] else [])
    ensures forall d :: Outgoing(body[..i + 1], d, s, p) ==
              Outgoing(body[..i], d, s, p) + (if p.Of(body[i].recipient) == d && d != s then [Marked(body[i])] else [])
  {
    var next := body[..i + 1];
    assert next[..|next| - 1] == body[..i] && next[|next| - 1] == body[i];
  }

  /** Sorts a committed body into the relay pool and the reports, or stops at a misrouted transaction. */
  method ClassifyBody(body: seq<Tx>, s: Shard, p: Placement, pool: TxPool) returns (panicked: bool, r: Report)
    modifies pool`relayPool
    ensures panicked <==> exists tx :: tx in body && Misrouted(tx, s, p)
    ensures !panicked ==> r == Report(InnerTxs(body, s, p), Relay1Txs(body, s, p), Relay2Txs(body, s, p))
    ensures !panicked ==> forall d :: Waiting(pool.relayPool, d) == Outgoing(body, d, s, p)
  {
    pool.relayPool := map[];
    r := Report([], [], []);
    for i := 0 to |body|
      invariant forall j :: 0 <= j < i ==> !Misrouted(body[j], s, p)
      invariant r == Report(InnerTxs(body[..i], s, p), Relay1Txs(body[..i], s, p), Relay2Txs(body[..i], s, p))
      invariant forall d :: Waiting(pool.relayPool, d) == Outgoing(body[..i], d, s, p)
    {
      var tx := body[i];
      var ssid, rsid := p.Of(tx.sender), p.Of(tx.recipient);
      PrefixStep(body, i, s, p);
      assert tx in body;
      if !tx.relayed && ssid != s {
        return true, r;
      }
      if tx.relayed && rsid != s {
        return true, r;
      }
      if rsid != s {
        r := r.(relay1 := r.relay1 + [Marked(tx)]);
        ghost var was := pool.relayPool;
        pool.AddRelayTx(Marked(tx), rsid);
        forall d
          ensures Waiting(pool.relayPool, d) == Outgoing(body[..i + 1], d, s, p)
        {
          assert Waiting(was, d) == Outgoing(body[..i], d, s, p);
        }
      } else if tx.relayed {
        r := r.(relay2 := r.relay2 + [tx]);
      } else {
        r := r.(inner := r.inner + [tx]);
      }
    }
    assert body[..|body|] == body;
    panicked := false;
  }

  /** One message per other shard, carrying everything that waits for it; then the pool is empty. */
  method RelayMsgSend(pool: TxPool, s: Shard, shards: nat) returns (msgs: map<Shard, seq<Tx>>)
    modifies pool`relayPool
    ensures forall d :: d in msgs <==> 0 <= d < shards && d != s
    ensures forall d :: d in msgs ==> msgs[d] == Waiting(old(pool.relayPool), d)
    ensures pool.relayPool == map[]
  {
    msgs := map[];
    for d := 0 to shards
      invariant pool.relayPool == old(pool.relayPool)
      invariant forall e :: e in msgs <==> 0 <= e < d && e != s
      invariant forall e :: e in msgs ==> msgs[e] == Waiting(old(pool.relayPool), e)
    {
      if d != s {
        msgs := msgs[d := if d in pool.relayPool then pool.relayPool[d] else []];
      }
    }
    pool.ClearRelayPool();
  }

  /** Committing the block in the run of all shards puts exactly these messages on the network. */
  method SendCommitted(body: seq<Tx>, s: Shard, p: Placement, pool: TxPool, shards: nat, ghost sys: System)
    returns (panicked: bool, msgs: map<Shard, seq<Tx>>)
    requires s < shards == |sys.nodes| && forall a :: p.Of(a) < shards
    modifies pool`relayPool
    ensures panicked <==> exists tx :: tx in body && Misrouted(tx, s, p)
    ensures !panicked ==> forall q :: q in CommitBody(sys, s, body, p).sent <==>
              q in sys.sent || (q.dest in msgs && q.tx in msgs[q.dest])
  {
    var r;
    panicked, r := ClassifyBody(body, s, p, pool);
    if panicked {
      return true, map[];
    }
    msgs := RelayMsgSend(pool, s, shards);
    forall q
      ensures q in CommitBody(sys, s, body, p).sent <==> q in sys.sent || (q.dest in msgs && q.tx in msgs[q.dest])
    {
      CommitSends(sys, s, body, p, q);
      OutgoingDest(body, q.dest, s, p);
    }
  }

  lemma {:induction false} OutgoingDest(body: seq<Tx>, d: Shard, s: Shard, p: Placement)
    ensures forall tx :: tx in Outgoing(body, d, s, p) ==> d != s && p.Of(tx.recipient) == d && tx.relayed
  {
    if body != [] {
      OutgoingDest(body[..|body| - 1], d, s, p);
    }
  }
}
