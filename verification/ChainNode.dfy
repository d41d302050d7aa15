/** A node's copy of its shard's chain, with the operations that read and change it. */
module ChainNode {
  import opened Common
  import opened Ledger
  import opened Pool
  import opened Chain

  datatype ProofResult = Found(blockHash: Hash, height: nat) | NotFound

  class BlockChain {
    var blocks: map<Hash, Block>
    var newest: Hash
    var executed: set<Bytes>
    var current: Block
    var placement: Placement
    const shard: Shard
    const pool: TxPool

    ghost function View(): Store
      reads this
    {
      Store(blocks, newest, executed, current)
    }

    constructor (s: Shard, hash: Addr -> Shard)
      ensures View() == NewStore() && shard == s && fresh(pool) && placement == Placement(map[], hash)
      ensures Stores(View(), [GENESIS])
    {
      blocks, newest, executed, current := map[GENESIS.hash := GENESIS], GENESIS.hash, {}, GENESIS;
      placement, shard := Placement(map[], hash), s;
      pool := new TxPool();
      NewStoreExact();
    }

    method UpdatePartitionMap(key: Addr, val: Shard)
      modifies this`placement
      ensures placement == Placement(old(placement.recorded)[key := val], old(placement.hash))
      ensures placement.Of(key) == val && forall a :: a != key ==> placement.Of(a) == old(placement).Of(a)
    {
      placement := Placement(placement.recorded[key := val], placement.hash);
    }

    /** Whether some block on the chain holds the hash; the empty hash is an error rather than an answer. On
        a chain whose bloom filters cover their bodies the proof walk gives the same answer. */
    method HasTransaction(h: Bytes) returns (found: Option<bool>)
      ensures found.Some? <==> h != []
      ensures found.Some? ==> found.value == (h in executed)
      ensures forall c :: Stores(View(), c) && h != [] ==> (found.value <==> SomeBodyHas(c, h))
      ensures forall c :: Stores(View(), c) && h != [] && AllCovered(c) ==>
                (found.value <==> Walk(blocks, current.hash, current.header.number, h))
    {
      found := if |h| == 0 then None else Some(h in executed);
      forall c | Stores(View(), c)
        ensures h in executed <==> SomeBodyHas(c, h)
        ensures AllCovered(c) ==> (h in executed <==> Walk(blocks, current.hash, current.header.number, h))
      {
        IndexMeansStored(View(), c, h);
      }
    }

    method IsValidBlock(b: Option<Block>) returns (v: Verdict)
      ensures v == Check(View(), b, shard, placement)
    {
      if b.None? {
        return NilBlock;
      }
      var block := b.value;
      if block.header.number != current.header.number + 1 {
        return WrongHeight;
      }
      if block.header.parent != current.hash {
        return WrongParent;
      }
      if HashSet(block.body) != block.header.txRoot {
        return WrongTxRoot;
      }
      if OfHeader(block.header) != block.hash {
        return WrongHash;
      }
      v := CheckBody(block.body);
      if v != Accepted {
        return;
      }
      var expected := GetUpdateStatusTrie(current.header.stateRoot, block.body, shard, placement);
      v := if expected != block.header.stateRoot then WrongStateRoot else Accepted;
    }

    method CheckBody(body: seq<Tx>) returns (v: Verdict)
      ensures v == BodyVerdict(body, executed)
    {
      var seen: set<Bytes> := {};
      for i := 0 to |body|
        invariant BodyVerdict(body[..i], executed) == Accepted
        invariant seen == HashSet(body[..i])
      {
        var tx := body[i];
        HashSetStep(body, i);
        StepOverBody(body, executed, i);
        if |tx.hash| == 0 {
          return EmptyTxHash;
        }
        if tx.hash in seen {
          return DuplicateTx;
        }
        seen := seen + {tx.hash};
        if tx.hash in executed {
          return ReplayedTx;
        }
      }
      assert body[..|body|] == body;
      return Accepted;
    }

    method FilterFreshTransactions(txs: seq<Tx>) returns (kept: seq<Tx>)
      ensures kept == Fresh(txs, executed)
    {
      kept := [];
      var seen: set<Bytes> := {};
      for i := 0 to |txs|
        invariant kept == Fresh(txs[..i], executed)
        invariant seen == HashSet(txs[..i]) - {[]}
      {
        var tx := txs[i];
        HashSetStep(txs, i);
        FreshStep(txs, executed, i);
        if |tx.hash| == 0 || tx.hash in seen {
          continue;
        }
        seen := seen + {tx.hash};
        if tx.hash !in executed {
          kept := kept + [tx];
        }
      }
      assert txs[..|txs|] == txs;
    }

    /** A proposal takes the head of the queue and is accepted by every node on the same head. */
    method GenerateBlock(max: nat, time: int, miner: int) returns (b: Block, ghost packed: seq<Tx>)
      modifies pool`txQueue
      ensures packed + pool.txQueue == old(pool.txQueue)
      ensures |packed| == if |old(pool.txQueue)| < max then |old(pool.txQueue)| else max
      ensures b == Propose(View(), Fresh(packed, executed), time, miner, shard, placement)
      ensures Check(View(), Some(b), shard, placement) == Accepted
    {
      var txs := pool.PackTxs(max);
      packed := txs;
      var body := FilterFreshTransactions(txs);
      var root := GetUpdateStatusTrie(current.header.stateRoot, body, shard, placement);
      var header := Header(current.hash, root, HashSet(body), Bloom(body), current.header.number + 1, time, miner);
      b := Block(header, body, OfHeader(header));
      ProposedIsAccepted(View(), packed, time, miner, shard, placement);
    }

    /** A rejected block changes nothing at all; an accepted one becomes the head and leaves the queue. */
    method AddBlock(b: Option<Block>) returns (v: Verdict)
      modifies this`blocks, this`newest, this`executed, this`current, pool`txQueue
      ensures v == Check(old(View()), b, shard, placement)
      ensures View() == Chain.AddBlock(old(View()), b, shard, placement)
      ensures pool.txQueue ==
              if v == Accepted then Without(old(pool.txQueue), HashSet(b.value.body)) else old(pool.txQueue)
    {
      v := IsValidBlock(b);
      if v == Accepted {
        StoreBlock(b.value);
        pool.RemoveTxs(b.value.body);
      }
    }

    method StoreBlock(b: Block)
      modifies this`blocks, this`newest, this`executed, this`current
      ensures View() == Append(old(View()), b)
    {
      blocks := blocks[b.hash := b];
      newest := b.hash;
      var was := executed;
      for i := 0 to |b.body|
        invariant blocks == old(blocks)[b.hash := b] && newest == b.hash
        invariant executed == was + Indexed(b.body[..i])
      {
        HashSetStep(b.body, i);
        if |b.body[i].hash| > 0 {
          executed := executed + {b.body[i].hash};
        }
      }
      assert b.body[..|b.body|] == b.body;
      current := b;
    }

    method AddAccounts(ac: seq<Addr>, states: seq<Account>)
      requires |ac| == |states|
      modifies this`blocks, this`newest, this`executed, this`current
      ensures View() == Install(old(View()), Installed(old(current.header.stateRoot), ac, states, shard, placement))
    {
      var root := InstallAccounts(current.header.stateRoot, ac, states, shard, placement);
      var header := Header(current.hash, root, {}, {}, current.header.number + 1, 0, 0);
      StoreBlock(Block(header, [], OfHeader(header)));
    }

    /** Opening the store again adds the hashes of every stored body to the index. */
    method BackfillIndex()
      modifies this`executed
      ensures View() == old(View()).(executed := Backfill(blocks, old(executed)))
    {
      var todo := blocks.Keys;
      while todo != {}
        invariant todo <= blocks.Keys && old(executed) <= executed
        invariant forall k :: k in blocks && k !in todo ==> Indexed(blocks[k].body) <= executed
        invariant forall h :: h in executed && h !in old(executed) ==>
                    exists k :: k in blocks && h in Indexed(blocks[k].body)
        decreases todo
      {
        var k :| k in todo;
        executed := executed + Indexed(blocks[k].body);
        todo := todo - {k};
      }
    }

    /** Walks the parent links from the head; a hit names a stored block that contains the transaction. */
    method TxProofGenerate(h: Bytes) returns (r: ProofResult)
      ensures r.Found? <==> Walk(blocks, current.hash, current.header.number, h)
      ensures r.Found? ==> exists k :: k in blocks && FoundInBlock(blocks[k], h)
                                    && r == Found(blocks[k].hash, blocks[k].header.number)
    {
      var at, height := current.hash, current.header.number;
      while height > 0
        invariant Walk(blocks, current.hash, current.header.number, h) == Walk(blocks, at, height, h)
      {
        if at !in blocks {
          return NotFound;
        }
        var block := blocks[at];
        if FoundInBlock(block, h) {
          return Found(block.hash, block.header.number);
        }
        at, height := block.header.parent, height - 1;
      }
      return NotFound;
    }
  }

  lemma StepOverBody(body: seq<Tx>, executed: set<Bytes>, i: nat)
    requires i < |body| && BodyVerdict(body[..i], executed) == Accepted
    ensures var tx := body[i];
            var v := if tx.hash == [] then EmptyTxHash
                     else if tx.hash in HashSet(body[..i]) then DuplicateTx
                     else if tx.hash in executed then ReplayedTx else Accepted;
            && BodyVerdict(body[..i + 1], executed) == v
            && (v != Accepted ==> BodyVerdict(body, executed) == v)
  {
    var next := body[..i + 1];
    assert next[..|next| - 1] == body[..i] && next[|next| - 1] == body[i];
    if BodyVerdict(next, executed) != Accepted {
      FirstOffenceStands(body, executed, i + 1);
    }
  }

  lemma {:induction false} FirstOffenceStands(body: seq<Tx>, executed: set<Bytes>, n: nat)
    requires n <= |body| && BodyVerdict(body[..n], executed) != Accepted
    ensures BodyVerdict(body, executed) == BodyVerdict(body[..n], executed)
  {
    if n == |body| {
      assert body[..n] == body;
    } else {
      var init := body[..|body| - 1];
      assert init[..n] == body[..n];
      FirstOffenceStands(init, executed, n);
    }
  }
}
