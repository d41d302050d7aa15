/** The leader of a shard during a re-sharding round. */
module MigrationNode {
  import opened Common
  import opened Ledger
  import opened Pool
  import opened Migration
  import C = Chain
  import ChainNode

  datatype Message = Message(addrs: seq<Addr>, states: seq<Account>, txs: seq<Tx>)
  datatype TransferMsg = TransferMsg(modifiedMap: Moves, addrs: seq<Addr>, states: seq<Account>, atId: nat)

  /** The two lists spell out the packet. */
  ghost predicate Spells(addrs: seq<Addr>, states: seq<Account>, packet: map<Addr, Account>) {
    && |addrs| == |states|
    && (forall i :: 0 <= i < |addrs| ==> addrs[i] in packet && states[i] == packet[addrs[i]])
    && (forall a :: a in packet ==> a in addrs)
  }

  /** The guard a received transaction must pass; a missing entry reads as shard 0. */
  predicate Misplaced(tx: Tx, M: Moves, s: Shard) {
    var r := RoutingAccount(tx);
    (if r in M then M[r] else 0) != s
  }

  // ----- Sending -----

  /** Two pointers over one list: what is sent is copied out, what is kept slides to the front. */
  method CompactQueue(q0: seq<Tx>, addrSet: set<Addr>) returns (q: seq<Tx>, sent: seq<Tx>)
    ensures q == Keep(q0, addrSet) && sent == Send(q0, addrSet)
  {
    var buf, first := q0, 0;
    sent := [];
    for second := 0 to |q0|
      invariant 0 <= first <= second && |buf| == |q0|
      invariant buf[second..] == q0[second..]
      invariant buf[..first] == Keep(q0[..second], addrSet) && sent == Send(q0[..second], addrSet)
    {
      var ptx := buf[second];
      assert ptx == buf[second..][0] == q0[second];
      assert q0[..second + 1][..second] == q0[..second];
      var condition1 := ptx.sender in addrSet && !ptx.relayed;
      var condition2 := ptx.recipient in addrSet && ptx.relayed;
      ghost var was := buf;
      if condition1 || condition2 {
        sent := sent + [ptx];
      } else {
        buf := buf[first := ptx];
        first := first + 1;
        assert buf[..first] == was[..first - 1] + [ptx];
      }
      assert buf[second + 1..] == was[second..][1..];
    }
    assert q0[..|q0|] == q0;
    q := buf[..first];
  }

  method AccountsToFetch(M: Moves, p: Placement, s: Shard) returns (addrs: seq<Addr>)
    ensures forall a :: a in addrs <==> a in M && M[a] != s && p.Of(a) == s
  {
    addrs := [];
    var todo := M.Keys;
    while todo != {}
      invariant todo <= M.Keys
      invariant forall a :: a in addrs <==> a in M && a !in todo && M[a] != s && p.Of(a) == s
      decreases todo
    {
      var a :| a in todo;
      if M[a] != s && p.Of(a) == s {
        addrs := addrs + [a];
      }
      todo := todo - {a};
    }
  }

  method SelectFor(M: Moves, p: Placement, s: Shard, d: Shard, addrs: seq<Addr>, states: seq<Account>,
                   ghost trie: Accounts)
    returns (addrSend: seq<Addr>, addrSet: set<Addr>, asSend: seq<Account>)
    requires d != s && |addrs| == |states|
    requires forall a :: a in addrs <==> a in M && M[a] != s && p.Of(a) == s
    requires forall i :: 0 <= i < |addrs| ==> states[i] == Lookup(trie, addrs[i], 0)
    ensures addrSet == Leaving(M, p, s, d)
    ensures Spells(addrSend, asSend, Packet(trie, M, p, s, d))
  {
    addrSend, addrSet, asSend := [], {}, [];
    for i := 0 to |addrs|
      invariant |addrSend| == |asSend|
      invariant addrSet == set a | a in addrs[..i] && M[a] == d
      invariant forall a :: a in addrSend <==> a in addrSet
      invariant forall j :: 0 <= j < |addrSend| ==> addrSend[j] in addrSet && asSend[j] == Lookup(trie, addrSend[j], 0)
    {
      assert addrs[..i + 1] == addrs[..i] + [addrs[i]];
      assert addrs[i] in addrs;
      if M[addrs[i]] == d {
        addrSend := addrSend + [addrs[i]];
        addrSet := addrSet + {addrs[i]};
        asSend := asSend + [states[i]];
      }
    }
    assert addrs[..|addrs|] == addrs;
    assert addrSet == Leaving(M, p, s, d);
  }

  /** What the message from s to d must carry. */
  ghost predicate Carries(m: Message, trie: Accounts, q: seq<Tx>, M: Moves, p: Placement, s: Shard, d: Shard) {
    Spells(m.addrs, m.states, Packet(trie, M, p, s, d)) && m.txs == Send(q, Leaving(M, p, s, d))
  }

  /** One message to every other shard; together with the queue that stays they carry everything. */
  method SendAccountsAndTxs(trie: Accounts, pool: TxPool, M: Moves, p: Placement, s: Shard, n: nat)
    returns (msgs: map<Shard, Message>)
    modifies pool`txQueue
    ensures AllSent(msgs, trie, old(pool.txQueue), M, p, s, n)
    ensures pool.txQueue == Keep(old(pool.txQueue), LeavingBelow(M, p, s, n))
  {
    var q0 := pool.txQueue;
    var addrs := AccountsToFetch(M, p, s);
    var states := FetchAccounts(trie, addrs);
    msgs := map[];
    NoneBelowZero(q0, M, p, s);
    for d := 0 to n
      invariant pool.txQueue == Keep(q0, LeavingBelow(M, p, s, d))
      invariant AllSent(msgs, trie, q0, M, p, s, d)
    {
      if d == s {
        OneMoreLeaves(q0, M, p, s, d);
        SentToSelf(msgs, trie, q0, M, p, s);
        continue;
      }
      var m, q := MessageFor(M, p, s, d, addrs, states, trie, pool.txQueue, q0);
      SentOneMore(msgs, trie, q0, M, p, s, d, m);
      pool.txQueue := q;
      msgs := msgs[d := m];
    }
  }

  ghost predicate AllSent(msgs: map<Shard, Message>, trie: Accounts, q: seq<Tx>, M: Moves, p: Placement,
                          s: Shard, n: nat)
  {
    && (forall d :: d in msgs <==> 0 <= d < n && d != s)
    && (forall d :: d in msgs ==> Carries(msgs[d], trie, q, M, p, s, d))
  }

  lemma SentToSelf(msgs: map<Shard, Message>, trie: Accounts, q: seq<Tx>, M: Moves, p: Placement, s: Shard)
    requires AllSent(msgs, trie, q, M, p, s, s)
    ensures AllSent(msgs, trie, q, M, p, s, s + 1)
  {
  }

  lemma SentOneMore(msgs: map<Shard, Message>, trie: Accounts, q: seq<Tx>, M: Moves, p: Placement, s: Shard, d: Shard,
                    m: Message)
    requires AllSent(msgs, trie, q, M, p, s, d) && d != s && Carries(m, trie, q, M, p, s, d)
    ensures AllSent(msgs[d := m], trie, q, M, p, s, d + 1)
  {
  }

  /** The message to one destination, and the queue without what it takes along. */
  method MessageFor(M: Moves, p: Placement, s: Shard, d: Shard, addrs: seq<Addr>, states: seq<Account>,
                    ghost trie: Accounts, queue: seq<Tx>, ghost q0: seq<Tx>)
    returns (m: Message, q: seq<Tx>)
    requires d != s && |addrs| == |states| && queue == Keep(q0, LeavingBelow(M, p, s, d))
    requires forall a :: a in addrs <==> a in M && M[a] != s && p.Of(a) == s
    requires forall i :: 0 <= i < |addrs| ==> states[i] == Lookup(trie, addrs[i], 0)
    ensures Carries(m, trie, q0, M, p, s, d) && q == Keep(q0, LeavingBelow(M, p, s, d + 1))
  {
    OneMoreLeaves(q0, M, p, s, d);
    var addrSend, addrSet, asSend := SelectFor(M, p, s, d, addrs, states, trie);
    var rest, txSend := CompactQueue(queue, addrSet);
    m, q := Message(addrSend, asSend, txSend), rest;
  }

  lemma OneMoreLeaves(q0: seq<Tx>, M: Moves, p: Placement, s: Shard, d: Shard)
    ensures d == s ==> Keep(q0, LeavingBelow(M, p, s, d + 1)) == Keep(q0, LeavingBelow(M, p, s, d))
    ensures d != s ==>
              && Send(Keep(q0, LeavingBelow(M, p, s, d)), Leaving(M, p, s, d)) == Send(q0, Leaving(M, p, s, d))
              && Keep(Keep(q0, LeavingBelow(M, p, s, d)), Leaving(M, p, s, d)) == Keep(q0, LeavingBelow(M, p, s, d + 1))
  {
    LeavingStep(M, p, s, d);
    KeepTwice(q0, LeavingBelow(M, p, s, d), Leaving(M, p, s, d));
    if d == s {
      assert LeavingBelow(M, p, s, d + 1) == LeavingBelow(M, p, s, d);
    }
  }

  lemma NoneBelowZero(q: seq<Tx>, M: Moves, p: Placement, s: Shard)
    ensures Keep(q, LeavingBelow(M, p, s, 0)) == q
  {
    assert LeavingBelow(M, p, s, 0) == {};
    KeepAll(q);
  }

  // ----- Receiving -----

  /** Every other shard's message is in, and carries what that shard had to send. */
  ghost predicate Collected(inbox: map<Shard, Message>, nodes: seq<Node>, M: Moves, p: Placement, d: Shard) {
    && (forall s :: s in inbox <==> 0 <= s < |nodes| && s != d)
    && (forall s :: s in inbox ==> Carries(inbox[s], nodes[s].trie, nodes[s].queue, M, p, s, d))
  }

  method MergeStates(states0: map<Addr, Account>, m: Message, ghost packet: map<Addr, Account>)
    returns (states: map<Addr, Account>)
    requires |m.addrs| == |m.states|
    ensures Spells(m.addrs, m.states, packet) ==> states == states0 + packet
  {
    states := states0;
    ghost var spelled := Spells(m.addrs, m.states, packet);
    for i := 0 to |m.addrs|
      invariant spelled ==> Overlaid(states0, states, packet, m.addrs[..i])
    {
      assert m.addrs[..i + 1] == m.addrs[..i] + [m.addrs[i]];
      if spelled {
        OverlaidStep(states0, states, packet, m.addrs[..i], m.addrs[i]);
      }
      states := states[m.addrs[i] := m.states[i]];
    }
    assert m.addrs[..|m.addrs|] == m.addrs;
  }

  /** The states read so far are those arriving from the shards read so far. */
  ghost predicate ReadFrom(states: map<Addr, Account>, arriving: map<Addr, Account>, p: Placement, order: seq<Shard>) {
    && (forall a :: a in states <==> a in arriving && p.Of(a) in order)
    && (forall a :: a in states ==> states[a] == arriving[a])
  }

  lemma ReadOneMore(states: map<Addr, Account>, nodes: seq<Node>, M: Moves, p: Placement, d: Shard,
                    order: seq<Shard>, s: Shard)
    requires s < |nodes| && ReadFrom(states, Arriving(nodes, M, p, d), p, order)
    ensures ReadFrom(states + Packet(nodes[s].trie, M, p, s, d), Arriving(nodes, M, p, d), p, order + [s])
  {
    var packet, arriving := Packet(nodes[s].trie, M, p, s, d), Arriving(nodes, M, p, d);
    forall a
      ensures a in packet <==> a in arriving && p.Of(a) == s
      ensures a in packet ==> packet[a] == arriving[a]
    {
      ArrivingIsPackets(nodes, M, p, d, a);
    }
  }

  lemma GatherOneMore(nodes: seq<Node>, M: Moves, p: Placement, d: Shard, order: seq<Shard>, s: Shard)
    requires s < |nodes| && forall i :: 0 <= i < |order| ==> order[i] < |nodes|
    requires Distinct(order) && s !in order
    ensures Gather(nodes, M, p, d, order + [s]) ==
            Gather(nodes, M, p, d, order) + Send(nodes[s].queue, Leaving(M, p, s, d))
    ensures Distinct(order + [s])
  {
    assert (order + [s])[..|order|] == order;
  }

  /** A message lists one state per address. */
  ghost predicate WellFormed(inbox: map<Shard, Message>) {
    forall s :: s in inbox ==> |inbox[s].addrs| == |inbox[s].states|
  }

  ghost predicate Received(inbox: map<Shard, Message>, tx: Tx) {
    exists s :: s in inbox && tx in inbox[s].txs
  }

  ghost predicate CollectedAt(inbox: map<Shard, Message>, nodes: seq<Node>, M: Moves, p: Placement, d: Shard) {
    Collected(inbox, nodes, M, p, d) && d < |nodes| && InRange(p, |nodes|)
  }

  /** What reading an inbox yields: the received transactions; and, if the messages are those of one round,
      exactly the states that arrive here and the senders' lists one after another. */
  ghost predicate Merged(inbox: map<Shard, Message>, states: map<Addr, Account>, txs: seq<Tx>, order: seq<Shard>,
                         nodes: seq<Node>, M: Moves, p: Placement, d: Shard)
  {
    && (forall tx :: tx in txs <==> Received(inbox, tx))
    && (CollectedAt(inbox, nodes, M, p, d) ==>
          states == Arriving(nodes, M, p, d) && IsOrder(order, |nodes|) && txs == Gather(nodes, M, p, d, order))
  }

  /** Reads the messages in any order. */
  method MergeInbox(inbox: map<Shard, Message>, ghost nodes: seq<Node>, ghost M: Moves, ghost p: Placement, d: Shard)
    returns (states: map<Addr, Account>, txs: seq<Tx>, ghost order: seq<Shard>)
    requires WellFormed(inbox)
    ensures forall tx :: tx in txs <==> Received(inbox, tx)
    ensures CollectedAt(inbox, nodes, M, p, d) ==> states == Arriving(nodes, M, p, d)
    ensures Merged(inbox, states, txs, order, nodes, M, p, d)
  {
    states, txs, order := map[], [], [];
    var todo := inbox.Keys;
    ghost var collected := CollectedAt(inbox, nodes, M, p, d);
    while todo != {}
      invariant todo <= inbox.Keys && Distinct(order)
      invariant forall s :: s in order <==> s in inbox && s !in todo
      invariant TxsOf(txs, inbox, order)
      invariant collected ==> ReadSoFar(states, txs, nodes, M, p, d, order)
      decreases todo
    {
      var s :| s in todo;
      ghost var packet := if collected then Packet(nodes[s].trie, M, p, s, d) else map[];
      ghost var was := states;
      states := MergeStates(states, inbox[s], packet);
      if collected {
        ReadSoFarStep(was, states, txs, inbox, nodes, M, p, d, order, s);
      }
      OneMoreMessage(inbox, txs, order, s);
      txs := txs + inbox[s].txs;
      order := order + [s];
      todo := todo - {s};
    }
    AllMessages(inbox, txs, order);
    if collected {
      FinishOrder(nodes, M, p, d, order);
      ReadAll(states, nodes, M, p, d, order);
    }
    order := order + [d];
  }

  /** The transactions are those of the messages read so far. */
  ghost predicate TxsOf(txs: seq<Tx>, inbox: map<Shard, Message>, order: seq<Shard>) {
    forall tx :: tx in txs <==> exists s :: s in order && s in inbox && tx in inbox[s].txs
  }

  ghost predicate ReadSoFar(states: map<Addr, Account>, txs: seq<Tx>, nodes: seq<Node>, M: Moves, p: Placement,
                            d: Shard, order: seq<Shard>)
  {
    && (forall i :: 0 <= i < |order| ==> order[i] < |nodes|)
    && ReadFrom(states, Arriving(nodes, M, p, d), p, order)
    && txs == Gather(nodes, M, p, d, order)
  }

  lemma ReadSoFarStep(was: map<Addr, Account>, states: map<Addr, Account>, txs: seq<Tx>, inbox: map<Shard, Message>,
                      nodes: seq<Node>, M: Moves, p: Placement, d: Shard, order: seq<Shard>, s: Shard)
    requires CollectedAt(inbox, nodes, M, p, d) && s in inbox && s !in order && Distinct(order)
    requires ReadSoFar(was, txs, nodes, M, p, d, order) && states == was + Packet(nodes[s].trie, M, p, s, d)
    ensures ReadSoFar(states, txs + inbox[s].txs, nodes, M, p, d, order + [s])
  {
    ReadOneMore(was, nodes, M, p, d, order, s);
    GatherOneMore(nodes, M, p, d, order, s);
  }

  lemma OneMoreMessage(inbox: map<Shard, Message>, txs: seq<Tx>, order: seq<Shard>, s: Shard)
    requires s in inbox && TxsOf(txs, inbox, order)
    ensures TxsOf(txs + inbox[s].txs, inbox, order + [s])
  {
    forall tx | tx in txs + inbox[s].txs
      ensures exists t :: t in order + [s] && t in inbox && tx in inbox[t].txs
    {
      if tx in txs {
        var t :| t in order && t in inbox && tx in inbox[t].txs;
        assert t in order + [s];
      } else {
        assert s in order + [s];
      }
    }
  }

  lemma AllMessages(inbox: map<Shard, Message>, txs: seq<Tx>, order: seq<Shard>)
    requires TxsOf(txs, inbox, order) && forall s :: s in order <==> s in inbox
    ensures forall tx :: tx in txs <==> Received(inbox, tx)
  {
  }

  lemma ReadAll(states: map<Addr, Account>, nodes: seq<Node>, M: Moves, p: Placement, d: Shard, order: seq<Shard>)
    requires ReadFrom(states, Arriving(nodes, M, p, d), p, order)
    requires forall s :: s in order <==> 0 <= s < |nodes| && s != d
    ensures states == Arriving(nodes, M, p, d)
  {
  }

  /** A shard sends nothing to itself, so its own place in the order does not matter. */
  lemma FinishOrder(nodes: seq<Node>, M: Moves, p: Placement, d: Shard, order: seq<Shard>)
    requires d < |nodes| && Distinct(order) && forall i :: 0 <= i < |order| ==> order[i] < |nodes|
    requires forall s :: s in order <==> 0 <= s < |nodes| && s != d
    ensures IsOrder(order + [d], |nodes|)
    ensures Gather(nodes, M, p, d, order + [d]) == Gather(nodes, M, p, d, order)
  {
    var full := order + [d];
    assert full[..|order|] == order;
    assert Leaving(M, p, d, d) == {};
    SendNothing(nodes[d].queue);
    forall i | 0 <= i < |order|
      ensures order[i] != d
    {
      assert order[i] in order;
    }
  }

  lemma {:induction false} SendNothing(q: seq<Tx>)
    ensures Send(q, {}) == []
  {
    if q != [] {
      SendNothing(q[..|q| - 1]);
    }
  }

  // ----- The round state of a leader -----

  class Resharder {
    var modifiedMap: seq<Moves>
    var accountTransferRound: nat
    var accountStateTx: map<Shard, Message>
    var receivedStates: map<Addr, Account>
    var receivedTxs: seq<Tx>
    var partitionOn: bool
    var collectOver: bool
    const shard: Shard
    const shardNums: nat
    const chain: ChainNode.BlockChain

    /** The maps received and not applied yet. */
    ghost function Unapplied(): seq<Moves>
      reads this
    {
      if accountTransferRound <= |modifiedMap| then modifiedMap[accountTransferRound..] else []
    }

    /** Between rounds every received map has been applied; during a round exactly one is left. */
    ghost predicate InStep()
      reads this
    {
      |modifiedMap| == accountTransferRound + (if partitionOn then 1 else 0)
    }

    constructor (s: Shard, n: nat, c: ChainNode.BlockChain)
      ensures InStep() && !partitionOn && modifiedMap == [] && accountStateTx == map[]
      ensures receivedStates == map[] && receivedTxs == []
    {
      receivedStates, receivedTxs := map[], [];
      modifiedMap, accountTransferRound, accountStateTx := [], 0, map[];
      partitionOn, collectOver, shard, shardNums, chain := false, false, s, n, c;
    }

    /** A new map waits behind those not applied yet. It is the one the next accounts are sent by; it is also
        the one the next proposal is checked against exactly when no other map was waiting. */
    method HandlePartitionMsg(M: Moves)
      requires accountTransferRound <= |modifiedMap|
      modifies this`modifiedMap, this`partitionOn
      ensures modifiedMap == old(modifiedMap) + [M] && partitionOn
      ensures Unapplied() == old(Unapplied()) + [M]
      ensures InStep() <==> old(Unapplied()) == []
      ensures old(InStep()) ==> (InStep() <==> !old(partitionOn))
    {
      modifiedMap := modifiedMap + [M];
      partitionOn := true;
    }

    /** A report is kept under its sender, so a repeated one replaces the first. Until then open, collection
        is over exactly when every other shard has reported. */
    method HandleAccountStateAndTxMsg(from: Shard, m: Message)
      modifies this`accountStateTx, this`collectOver
      ensures accountStateTx == old(accountStateTx)[from := m]
      ensures collectOver == (old(collectOver) || |accountStateTx| == shardNums - 1)
      ensures shard < shardNums && !old(collectOver) && accountStateTx.Keys <= Others(shardNums, shard) ==>
                (collectOver <==> forall s: Shard :: s < shardNums && s != shard ==> s in accountStateTx)
    {
      accountStateTx := accountStateTx[from := m];
      if |accountStateTx| == shardNums - 1 {
        collectOver := true;
      }
      assert |accountStateTx| == |accountStateTx.Keys|;
      if shard < shardNums && accountStateTx.Keys <= Others(shardNums, shard) {
        FullSubset(accountStateTx.Keys, Others(shardNums, shard));
      }
    }

    /** What the messages hold is added to what earlier proposals of this round read. The proposal panics
        exactly when no map is waiting or something received is not mapped here by the oldest waiting map;
        otherwise everything received so far goes to the queue. For the first proposal of a round, on
        messages sent by that very map: no panic, its states are exactly the arriving accounts, and the
        queue gains exactly the transactions that were sent here. */
    method ProposePartition(ghost nodes: seq<Node>, ghost p: Placement)
      returns (panicked: bool, atm: TransferMsg, ghost read: seq<Tx>, ghost order: seq<Shard>)
      requires WellFormed(accountStateTx)
      modifies this`receivedStates, this`receivedTxs, chain.pool`txQueue
      ensures receivedTxs == old(receivedTxs) + read && forall tx :: tx in read <==> Received(accountStateTx, tx)
      ensures panicked <==>
              (Unapplied() == [] || exists tx :: tx in receivedTxs && Misplaced(tx, Unapplied()[0], shard))
      ensures panicked ==> chain.pool.txQueue == old(chain.pool.txQueue)
      ensures !panicked ==>
                && atm.modifiedMap == Unapplied()[0] && atm.atId == |modifiedMap|
                && Spells(atm.addrs, atm.states, receivedStates)
                && chain.pool.txQueue == old(chain.pool.txQueue) + receivedTxs
      ensures Unapplied() != [] && CollectedAt(accountStateTx, nodes, Unapplied()[0], p, shard)
              && old(receivedTxs) == [] && old(receivedStates) == map[] ==>
                var M := Unapplied()[0];
                && !panicked
                && Spells(atm.addrs, atm.states, Arriving(nodes, M, p, shard))
                && IsOrder(order, |nodes|)
                && chain.pool.txQueue == old(chain.pool.txQueue) + Gather(nodes, M, p, shard, order)
    {
      ghost var M := if Unapplied() == [] then map[] else Unapplied()[0];
      var states, txs;
      states, txs, order := MergeInbox(accountStateTx, nodes, M, p, shard);
      read := txs;
      receivedStates := receivedStates + states;
      receivedTxs := receivedTxs + txs;
      atm := TransferMsg(map[], [], [], |modifiedMap|);
      if accountTransferRound >= |modifiedMap| {
        return true, atm, read, order;
      }
      var round := modifiedMap[accountTransferRound];
      if CollectedAt(accountStateTx, nodes, M, p, shard) {
        NoneMisplaced(txs, nodes, M, p, shard, order);
      }
      panicked := AnyMisplaced(receivedTxs, round, shard);
      if panicked {
        return;
      }
      chain.pool.AddTxs2Pool(receivedTxs);
      var addrs, list := ListStates(receivedStates);
      atm := TransferMsg(round, addrs, list, |modifiedMap|);
    }

    /** Applying the round on any node of the shard: the map is switched, and the listed accounts that are
        now mapped here are installed over whatever stale copies were there. The round ends. A second map
        that the proposal counted is no longer waiting although it was not applied; one that came after the
        proposal keeps waiting, with no round running and the applied map waiting again behind it. */
    method AccountTransferDo(atm: TransferMsg, ghost arriving: map<Addr, Account>)
      requires |atm.addrs| == |atm.states| && chain.shard == shard
      modifies this, chain
      ensures chain.placement == Switched(old(chain.placement), atm.modifiedMap)
      ensures chain.View() == C.Install(old(chain.View()), Installed(old(chain.current.header.stateRoot), atm.addrs,
                                                                     atm.states, shard, chain.placement))
      ensures Spells(atm.addrs, atm.states, arriving) && AllMapped(arriving, chain.placement, shard) ==>
                chain.current.header.stateRoot == old(chain.current.header.stateRoot) + arriving
      ensures !partitionOn && !collectOver && accountTransferRound == atm.atId
      ensures accountStateTx == map[] && receivedStates == map[] && receivedTxs == []
      ensures InStep() <==> atm.atId == |old(modifiedMap)| || atm.atId == |old(modifiedMap)| + 1
      ensures atm.atId >= |old(modifiedMap)| ==> Unapplied() == []
      ensures atm.atId < |old(modifiedMap)| ==> Unapplied() == old(modifiedMap)[atm.atId..] + [atm.modifiedMap]
    {
      SwitchAndInstall(atm, arriving);
      if |modifiedMap| != atm.atId {
        modifiedMap := modifiedMap + [atm.modifiedMap];
      }
      accountTransferRound := atm.atId;
      accountStateTx := map[];
      receivedStates, receivedTxs := map[], [];
      partitionOn := false;
      collectOver := false;
    }

    method SwitchAndInstall(atm: TransferMsg, ghost arriving: map<Addr, Account>)
      requires |atm.addrs| == |atm.states| && chain.shard == shard
      modifies chain
      ensures chain.placement == Switched(old(chain.placement), atm.modifiedMap)
      ensures chain.View() == C.Install(old(chain.View()), Installed(old(chain.current.header.stateRoot), atm.addrs,
                                                                     atm.states, shard, chain.placement))
      ensures Spells(atm.addrs, atm.states, arriving) && AllMapped(arriving, chain.placement, shard) ==>
                chain.current.header.stateRoot == old(chain.current.header.stateRoot) + arriving
    {
      SwitchMap(atm.modifiedMap);
      ghost var root, placement := chain.current.header.stateRoot, chain.placement;
      chain.AddAccounts(atm.addrs, atm.states);
      if Spells(atm.addrs, atm.states, arriving) && AllMapped(arriving, placement, shard) {
        InstalledIsOverlay(root, atm.addrs, atm.states, shard, placement, arriving);
      }
    }

    method SwitchMap(M: Moves)
      modifies chain`placement
      ensures chain.placement == Switched(old(chain.placement), M)
    {
      ghost var was := chain.placement;
      var todo := M.Keys;
      while todo != {}
        invariant todo <= M.Keys
        invariant chain.placement == Placement(was.recorded + (map a | a in M && a !in todo :: M[a]), was.hash)
        decreases todo
      {
        var a :| a in todo;
        chain.UpdatePartitionMap(a, M[a]);
        todo := todo - {a};
      }
      assert (map a | a in M && a !in todo :: M[a]) == M;
    }
  }

  function Others(n: nat, s: Shard): set<Shard> {
    Below(n) - {s}
  }

  lemma FullSubset(A: set<Shard>, B: set<Shard>)
    requires A <= B
    ensures |A| == |B| <==> A == B
  {
    assert |B - A| == |B| - |A|;
  }

  lemma NoneMisplaced(txs: seq<Tx>, nodes: seq<Node>, M: Moves, p: Placement, d: Shard, order: seq<Shard>)
    requires IsOrder(order, |nodes|) && txs == Gather(nodes, M, p, d, order)
    ensures forall tx :: tx in txs ==> !Misplaced(tx, M, d)
  {
    forall tx | tx in txs
      ensures !Misplaced(tx, M, d)
    {
      ReceivedAreMappedHere(nodes, M, p, d, order, tx);
    }
  }

  // ----- The node-level steps make up a round -----

  function InboxOf(msgs: seq<map<Shard, Message>>, d: Shard): map<Shard, Message> {
    map s | s in Others(|msgs|, d) && d in msgs[s] :: msgs[s][d]
  }

  /** What every shard sends is what every shard collects. */
  lemma SentIsCollected(nodes: seq<Node>, M: Moves, p: Placement, msgs: seq<map<Shard, Message>>, d: Shard)
    requires |msgs| == |nodes| && d < |nodes|
    requires forall s :: 0 <= s < |nodes| ==> AllSent(msgs[s], nodes[s].trie, nodes[s].queue, M, p, s, |nodes|)
    ensures Collected(InboxOf(msgs, d), nodes, M, p, d)
  {
  }

  /** What one shard has after the round: what it read, listed, installed and queued. */
  ghost predicate Finished(nodes: seq<Node>, M: Moves, p: Placement, inbox: map<Shard, Message>, d: Shard,
                           order: seq<Shard>, after: Node)
    requires d < |nodes|
  {
    exists states, txs, addrs, list ::
      && Merged(inbox, states, txs, order, nodes, M, p, d) && Spells(addrs, list, states)
      && after.queue == Keep(nodes[d].queue, LeavingBelow(M, p, d, |nodes|)) + txs
      && after.trie == Installed(nodes[d].trie, addrs, list, d, Switched(p, M))
  }

  /** When every shard sends, collects, proposes and applies, the shards together make exactly the round. */
  lemma NodeStepsMakeRound(nodes: seq<Node>, M: Moves, p: Placement, msgs: seq<map<Shard, Message>>,
                           orders: seq<seq<Shard>>, after: seq<Node>)
    requires InRange(p, |nodes|) && |msgs| == |orders| == |after| == |nodes|
    requires forall s :: 0 <= s < |nodes| ==> AllSent(msgs[s], nodes[s].trie, nodes[s].queue, M, p, s, |nodes|)
    requires forall d :: 0 <= d < |nodes| ==> Finished(nodes, M, p, InboxOf(msgs, d), d, orders[d], after[d])
    ensures Orders(orders, |nodes|) && after == Round(nodes, M, p, orders)
  {
    forall d | 0 <= d < |nodes|
      ensures IsOrder(orders[d], |nodes|) && after[d] == RoundNode(nodes, M, p, d, orders[d])
    {
      SentIsCollected(nodes, M, p, msgs, d);
      FinishedIsRoundNode(nodes, M, p, InboxOf(msgs, d), d, orders[d], after[d]);
    }
  }

  lemma FinishedIsRoundNode(nodes: seq<Node>, M: Moves, p: Placement, inbox: map<Shard, Message>, d: Shard,
                            order: seq<Shard>, after: Node)
    requires d < |nodes| && CollectedAt(inbox, nodes, M, p, d) && Finished(nodes, M, p, inbox, d, order, after)
    ensures IsOrder(order, |nodes|) && after == RoundNode(nodes, M, p, d, order)
  {
    var states, txs, addrs, list :|
      && Merged(inbox, states, txs, order, nodes, M, p, d) && Spells(addrs, list, states)
      && after.queue == Keep(nodes[d].queue, LeavingBelow(M, p, d, |nodes|)) + txs
      && after.trie == Installed(nodes[d].trie, addrs, list, d, Switched(p, M));
    InstalledIsOverlay(nodes[d].trie, addrs, list, d, Switched(p, M), states);
  }

  /** A second map that arrives before the first is applied: accounts and transactions are sent by the second
      and checked against the first, and the proposal panics. */
  lemma SecondMapPanics()
      returns (nodes: seq<Node>, p: Placement, first: Moves, second: Moves, inbox: map<Shard, Message>, tx: Tx)
    ensures CollectedAt(inbox, nodes, second, p, 1) && WellFormed(inbox)
    ensures Received(inbox, tx) && Misplaced(tx, first, 1)
  {
    tx := Tx([1], "a", "b", 0, false, false);
    p := Placement(map[], _ => 0);
    nodes := [Node(map[], [tx]), Node(map[], [])];
    first, second := map["b" := 1], map["a" := 1];
    inbox := map[0 := Message(["a"], [Lookup(map[], "a", 0)], [tx])];
    SecondMapMessage(tx, p, second);
    assert inbox[0].txs[0] == tx;
  }

  lemma SecondMapMessage(tx: Tx, p: Placement, second: Moves)
    requires tx == Tx([1], "a", "b", 0, false, false) && second == map["a" := 1]
    requires p.Of("a") == 0
    ensures Carries(Message(["a"], [Lookup(map[], "a", 0)], [tx]), map[], [tx], second, p, 0, 1)
  {
    assert Leaving(second, p, 0, 1) == {"a"};
    var none: seq<Tx> := [];
    assert [tx][..|[tx]| - 1] == none && Send(none, {"a"}) == [];
    assert Send([tx], {"a"}) == [tx];
  }

  method AnyMisplaced(txs: seq<Tx>, M: Moves, s: Shard) returns (panicked: bool)
    ensures panicked <==> exists tx :: tx in txs && Misplaced(tx, M, s)
  {
    for i := 0 to |txs|
      invariant forall j :: 0 <= j < i ==> !Misplaced(txs[j], M, s)
    {
      var tx := txs[i];
      if !tx.relayed && (if tx.sender in M then M[tx.sender] else 0) != s {
        assert tx in txs && Misplaced(tx, M, s);
        return true;
      }
      if tx.relayed && (if tx.recipient in M then M[tx.recipient] else 0) != s {
        assert tx in txs && Misplaced(tx, M, s);
        return true;
      }
    }
    return false;
  }

  method ListStates(states: map<Addr, Account>) returns (addrs: seq<Addr>, list: seq<Account>)
    ensures Spells(addrs, list, states)
  {
    addrs, list := [], [];
    var todo := states.Keys;
    while todo != {}
      invariant todo <= states.Keys && |addrs| == |list|
      invariant forall a :: a in addrs <==> a in states && a !in todo
      invariant forall i :: 0 <= i < |addrs| ==> addrs[i] in states && list[i] == states[addrs[i]]
      decreases todo
    {
      var a :| a in todo;
      addrs, list := addrs + [a], list + [states[a]];
      todo := todo - {a};
    }
  }

  ghost predicate AllMapped(arriving: map<Addr, Account>, p: Placement, s: Shard) {
    forall a :: a in arriving ==> p.Of(a) == s
  }

  /** The result is the old map with the listed accounts replaced by their arriving states. */
  ghost predicate Overlaid(st: Accounts, res: Accounts, arriving: map<Addr, Account>, listed: seq<Addr>) {
    && (forall a :: a in res <==> a in st || a in listed)
    && (forall a :: a in res && a in listed ==> a in arriving && res[a] == arriving[a])
    && (forall a :: a in res && a !in listed ==> res[a] == st[a])
  }

  lemma InstalledIsOverlay(st: Accounts, ac: seq<Addr>, states: seq<Account>, s: Shard, p: Placement,
                           arriving: map<Addr, Account>)
    requires Spells(ac, states, arriving) && forall a :: a in arriving ==> p.Of(a) == s
    ensures Installed(st, ac, states, s, p) == st + arriving
  {
    InstalledPrefix(st, ac, states, s, p, arriving, |ac|);
    assert ac[..|ac|] == ac && states[..|ac|] == states;
  }

  lemma {:induction false} InstalledPrefix(st: Accounts, ac: seq<Addr>, states: seq<Account>, s: Shard, p: Placement,
                                           arriving: map<Addr, Account>, n: nat)
    requires Spells(ac, states, arriving) && n <= |ac| && forall a :: a in arriving ==> p.Of(a) == s
    ensures Overlaid(st, Installed(st, ac[..n], states[..n], s, p), arriving, ac[..n])
  {
    if n > 0 {
      InstalledPrefix(st, ac, states, s, p, arriving, n - 1);
      InstalledOneMore(st, ac, states, s, p, n);
      var a := ac[n - 1];
      assert a in arriving && states[n - 1] == arriving[a];
      OverlaidStep(st, Installed(st, ac[..n - 1], states[..n - 1], s, p), arriving, ac[..n - 1], a);
      assert ac[..n] == ac[..n - 1] + [a];
    }
  }

  lemma InstalledOneMore(st: Accounts, ac: seq<Addr>, states: seq<Account>, s: Shard, p: Placement, n: nat)
    requires 0 < n <= |ac| == |states| && p.Of(ac[n - 1]) == s
    ensures Installed(st, ac[..n], states[..n], s, p) ==
            Installed(st, ac[..n - 1], states[..n - 1], s, p)[ac[n - 1] := states[n - 1]]
  {
    assert ac[..n][..n - 1] == ac[..n - 1] && states[..n][..n - 1] == states[..n - 1];
  }

  lemma OverlaidStep(st: Accounts, res: Accounts, arriving: map<Addr, Account>, listed: seq<Addr>, a: Addr)
    requires Overlaid(st, res, arriving, listed) && a in arriving
    ensures Overlaid(st, res[a := arriving[a]], arriving, listed + [a])
  {
  }
}
