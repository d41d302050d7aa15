/** The transaction queue of a shard. */
module Pool {
  import opened Ledger

  class TxPool {
    var txQueue: seq<Tx>
    /** Second-stage transactions waiting to be sent, per destination shard. */
    var relayPool: map<Shard, seq<Tx>>

    constructor ()
      ensures txQueue == [] && relayPool == map[]
    {
      txQueue, relayPool := [], map[];
    }

    method AddTxs2Pool(txs: seq<Tx>)
      modifies this`txQueue
      ensures txQueue == old(txQueue) + txs
    {
      var i := 0;
      while i < |txs|
        invariant 0 <= i <= |txs| && txQueue == old(txQueue) + txs[..i]
      {
        txQueue := txQueue + [txs[i]];
        i := i + 1;
      }
      assert txs[..|txs|] == txs;
    }

    /** Takes the head of the queue: nothing is lost, copied or reordered. */
    method PackTxs(max: nat) returns (packed: seq<Tx>)
      modifies this`txQueue
      ensures packed + txQueue == old(txQueue)
      ensures |packed| == if |old(txQueue)| < max then |old(txQueue)| else max
    {
      var n := if |txQueue| < max then |txQueue| else max;
      packed := txQueue[..n];
      txQueue := txQueue[n..];
    }

    /** Drops every queued copy of a committed transaction and keeps the rest in order. */
    method RemoveTxs(txs: seq<Tx>)
      modifies this`txQueue
      ensures txQueue == Without(old(txQueue), HashSet(txs))
    {
      if |txs| == 0 || |txQueue| == 0 {
        assert |txs| == 0 ==> HashSet(txs) == {};
        WithoutNothing(txQueue);
        return;
      }
      var committed := HashSet(txs);
      var kept: seq<Tx> := [];
      for i := 0 to |txQueue|
        invariant kept == Without(txQueue[..i], committed)
      {
        assert txQueue[..i + 1][..i] == txQueue[..i];
        if txQueue[i].hash !in committed {
          kept := kept + [txQueue[i]];
        }
      }
      assert txQueue[..|txQueue|] == txQueue;
      txQueue := kept;
    }

    method AddRelayTx(tx: Tx, dest: Shard)
      modifies this`relayPool
      ensures relayPool == old(relayPool)[dest := Waiting(old(relayPool), dest) + [tx]]
    {
      if dest !in relayPool {
        relayPool := relayPool[dest := []];
      }
      relayPool := relayPool[dest := relayPool[dest] + [tx]];
    }

    method ClearRelayPool()
      modifies this`relayPool
      ensures relayPool == map[]
    {
      relayPool := map[];
    }
  }

  function Waiting(pool: map<Shard, seq<Tx>>, dest: Shard): seq<Tx> {
    if dest in pool then pool[dest] else []
  }

  lemma {:induction false} WithoutNothing(txs: seq<Tx>)
    ensures Without(txs, {}) == txs
  {
    if txs != [] {
      WithoutNothing(txs[..|txs| - 1]);
    }
  }
}
