/** Accounts, transactions and block execution of one shard.

    A state root stands for the whole account map it commits to, and a transaction root for the set of
    hashes it is built from. */
module Ledger {
  import opened Common

  type Addr = string
  type Shard = nat
  type Byte = b: nat | b < 256
  type Bytes = seq<Byte>

  const INIT_BALANCE: int := 100000000000000000000000000000000000000000000

  datatype Account = Account(nonce: nat, balance: int)
  type Accounts = map<Addr, Account>

  datatype Tx = Tx(hash: Bytes, sender: Addr, recipient: Addr, value: int, relayed: bool, hasBroker: bool)

  /** Where accounts live: the recorded shard, or the one the address hashes to. */
  datatype Placement = Placement(recorded: map<Addr, Shard>, hash: Addr -> Shard) {
    function Of(a: Addr): Shard {
      if a in recorded then recorded[a] else hash(a)
    }
  }

  /** An absent account springs into being with the initial balance. */
  function Lookup(st: Accounts, a: Addr, nonce: nat): Account {
    if a in st then st[a] else Account(nonce, INIT_BALANCE)
  }

  function BalanceOf(st: Accounts, a: Addr): int {
    Lookup(st, a, 0).balance
  }

  function Add(st: Accounts, a: Addr, nonce: nat, v: int): (st': Accounts)
    ensures BalanceOf(st', a) == BalanceOf(st, a) + v
    ensures forall b :: b != a ==> BalanceOf(st', b) == BalanceOf(st, b)
    ensures st'.Keys == st.Keys + {a}
  {
    var acc := Lookup(st, a, nonce);
    st[a := Account(acc.nonce, acc.balance + v)]
  }

  predicate HasDebit(tx: Tx, s: Shard, p: Placement) {
    !tx.relayed && (p.Of(tx.sender) == s || tx.hasBroker)
  }

  predicate HasCredit(tx: Tx, s: Shard, p: Placement) {
    p.Of(tx.recipient) == s || tx.hasBroker
  }

  /** A debit that the sender's balance does not cover skips the whole transaction. */
  predicate Rejected(st: Accounts, tx: Tx, s: Shard, p: Placement) {
    HasDebit(tx, s, p) && BalanceOf(st, tx.sender) < tx.value
  }

  function ExecTx(st: Accounts, i: nat, tx: Tx, s: Shard, p: Placement): Accounts {
    if Rejected(st, tx, s, p) then st else
      var st1 := if HasDebit(tx, s, p) then Add(st, tx.sender, i, -tx.value) else st;
      if HasCredit(tx, s, p) then Add(st1, tx.recipient, i, tx.value) else st1
  }

  function Exec(st: Accounts, txs: seq<Tx>, s: Shard, p: Placement): Accounts {
    if txs == [] then st else
      ExecTx(Exec(st, txs[..|txs| - 1], s, p), |txs| - 1, txs[|txs| - 1], s, p)
  }

  lemma ExecStep(st: Accounts, txs: seq<Tx>, i: nat, s: Shard, p: Placement)
    requires i < |txs|
    ensures Exec(st, txs[..i + 1], s, p) == ExecTx(Exec(st, txs[..i], s, p), i, txs[i], s, p)
  {
    assert txs[..i + 1][..i] == txs[..i];
  }

  /** Executing a body statement by statement, as the status trie is updated. */
  method GetUpdateStatusTrie(root: Accounts, txs: seq<Tx>, s: Shard, p: Placement) returns (st: Accounts)
    ensures st == Exec(root, txs, s, p)
  {
    st := root;
    for i := 0 to |txs|
      invariant st == Exec(root, txs[..i], s, p)
    {
      ExecStep(root, txs, i, s, p);
      st := UpdateForTx(st, i, txs[i], s, p);
    }
    assert txs[..|txs|] == txs;
  }

  method UpdateForTx(st0: Accounts, i: nat, tx: Tx, s: Shard, p: Placement) returns (st: Accounts)
    ensures st == ExecTx(st0, i, tx, s, p)
  {
    st := st0;
    if !tx.relayed && (p.Of(tx.sender) == s || tx.hasBroker) {
      var sender := Lookup(st, tx.sender, i);
      if sender.balance < tx.value {
        return;
      }
      st := st[tx.sender := Account(sender.nonce, sender.balance - tx.value)];
    }
    if p.Of(tx.recipient) == s || tx.hasBroker {
      var recipient := Lookup(st, tx.recipient, i);
      st := st[tx.recipient := Account(recipient.nonce, recipient.balance + tx.value)];
    }
  }

  // ----- Moving accounts between shards -----

  /** Writes the received states of the accounts this shard now owns. */
  function Installed(st: Accounts, ac: seq<Addr>, states: seq<Account>, s: Shard, p: Placement): Accounts
    requires |ac| == |states|
  {
    if ac == [] then st else
      var n := |ac| - 1;
      var st1 := Installed(st, ac[..n], states[..n], s, p);
      if p.Of(ac[n]) == s then st1[ac[n] := states[n]] else st1
  }

  method InstallAccounts(root: Accounts, ac: seq<Addr>, states: seq<Account>, s: Shard, p: Placement)
    returns (st: Accounts)
    requires |ac| == |states|
    ensures st == Installed(root, ac, states, s, p)
  {
    st := root;
    for i := 0 to |ac|
      invariant st == Installed(root, ac[..i], states[..i], s, p)
    {
      assert ac[..i + 1][..i] == ac[..i] && states[..i + 1][..i] == states[..i];
      if p.Of(ac[i]) == s {
        st := st[ac[i] := Account(states[i].nonce, states[i].balance)];
      }
    }
    assert ac[..|ac|] == ac && states[..|states|] == states;
  }

  method FetchAccounts(st: Accounts, addrs: seq<Addr>) returns (res: seq<Account>)
    ensures |res| == |addrs| && forall i :: 0 <= i < |addrs| ==> res[i] == Lookup(st, addrs[i], 0)
  {
    res := [];
    for i := 0 to |addrs|
      invariant |res| == i && forall j :: 0 <= j < i ==> res[j] == Lookup(st, addrs[j], 0)
    {
      res := res + [if addrs[i] in st then st[addrs[i]] else Account(0, INIT_BALANCE)];
    }
  }

  // ----- Hashes and bodies -----

  function BigEndian(bs: Bytes): nat {
    if bs == [] then 0 else 256 * BigEndian(bs[..|bs| - 1]) + bs[|bs| - 1]
  }

  function ModBytes(bs: Bytes, m: nat): (r: nat)
    requires m > 0
    ensures r < m
  {
    BigEndian(bs) % m
  }

  const BLOOM_BITS: nat := 2048

  function Hashes(txs: seq<Tx>): (hs: seq<Bytes>)
    ensures |hs| == |txs| && forall i :: 0 <= i < |txs| ==> hs[i] == txs[i].hash
  {
    seq(|txs|, i requires 0 <= i < |txs| => txs[i].hash)
  }

  function HashSet(txs: seq<Tx>): (hs: set<Bytes>)
    ensures forall tx :: tx in txs ==> tx.hash in hs
    ensures forall h :: h in hs ==> exists i :: 0 <= i < |txs| && txs[i].hash == h
  {
    set i | 0 <= i < |txs| :: txs[i].hash
  }

  /** Transactions whose hash is not listed, in order. */
  function Without(txs: seq<Tx>, hs: set<Bytes>): seq<Tx> {
    if txs == [] then [] else
      Without(txs[..|txs| - 1], hs) + (if txs[|txs| - 1].hash in hs then [] else [txs[|txs| - 1]])
  }

  /** A transaction survives removal exactly when its hash was not committed. */
  lemma {:induction false} WithoutMembers(txs: seq<Tx>, hs: set<Bytes>, tx: Tx)
    ensures tx in Without(txs, hs) <==> tx in txs && tx.hash !in hs
  {
    if txs != [] {
      WithoutMembers(txs[..|txs| - 1], hs, tx);
      assert txs == txs[..|txs| - 1] + [txs[|txs| - 1]];
    }
  }

  /** The first usable copy of each hash that is not executed yet, in order. */
  function Fresh(txs: seq<Tx>, executed: set<Bytes>): seq<Tx> {
    if txs == [] then [] else
      var (init, tx) := (txs[..|txs| - 1], txs[|txs| - 1]);
      Fresh(init, executed)
      + (if tx.hash == [] || tx.hash in HashSet(init) || tx.hash in executed then [] else [tx])
  }

  lemma {:induction false} FreshIsUsable(txs: seq<Tx>, executed: set<Bytes>)
    ensures var fs := Fresh(txs, executed);
            && (forall tx :: tx in fs ==> tx in txs && tx.hash != [] && tx.hash !in executed)
            && Distinct(Hashes(fs))
  {
    if txs != [] {
      var init, tx := txs[..|txs| - 1], txs[|txs| - 1];
      FreshIsUsable(init, executed);
      var fs := Fresh(init, executed);
      if tx.hash !in HashSet(init) {
        forall i | 0 <= i < |fs|
          ensures fs[i].hash != tx.hash
        {
          assert fs[i] in fs;
        }
      }
    }
  }

  /** Nothing usable is lost: a hash survives filtering if it is non-empty and not executed. */
  lemma {:induction false} FreshKeepsAll(txs: seq<Tx>, executed: set<Bytes>)
    ensures HashSet(Fresh(txs, executed)) == HashSet(txs) - executed - {[]}
  {
    if txs != [] {
      var init, tx := txs[..|txs| - 1], txs[|txs| - 1];
      FreshKeepsAll(init, executed);
      HashSetAppend(init, [tx]);
      assert init + [tx] == txs;
      HashSetAppend(Fresh(init, executed),
                    if tx.hash == [] || tx.hash in HashSet(init) || tx.hash in executed then [] else [tx]);
    } else {
      assert HashSet(txs) == {};
    }
  }

  lemma HashSetAppend(xs: seq<Tx>, ys: seq<Tx>)
    ensures HashSet(xs + ys) == HashSet(xs) + HashSet(ys)
  {
    forall h | h in HashSet(xs) + HashSet(ys)
      ensures h in HashSet(xs + ys)
    {
      if h in HashSet(xs) {
        var i :| 0 <= i < |xs| && xs[i].hash == h;
        assert (xs + ys)[i] in xs + ys;
      } else {
        var i :| 0 <= i < |ys| && ys[i].hash == h;
        assert (xs + ys)[|xs| + i] in xs + ys;
      }
    }
    forall h | h in HashSet(xs + ys)
      ensures h in HashSet(xs) + HashSet(ys)
    {
      var i :| 0 <= i < |xs + ys| && (xs + ys)[i].hash == h;
      assert if i < |xs| then xs[i] in xs else ys[i - |xs|] in ys;
    }
  }

  lemma HashSetStep(txs: seq<Tx>, i: nat)
    requires i < |txs|
    ensures HashSet(txs[..i + 1]) == HashSet(txs[..i]) + {txs[i].hash}
    ensures txs[..i + 1][..i] == txs[..i]
  {
    HashSetAppend(txs[..i], [txs[i]]);
    assert txs[..i] + [txs[i]] == txs[..i + 1];
    assert HashSet([txs[i]]) == {txs[i].hash};
  }

  lemma FreshStep(txs: seq<Tx>, executed: set<Bytes>, i: nat)
    requires i < |txs|
    ensures var (init, tx) := (txs[..i], txs[i]);
            Fresh(txs[..i + 1], executed) == Fresh(init, executed)
            + (if tx.hash == [] || tx.hash in HashSet(init) || tx.hash in executed then [] else [tx])
  {
    assert txs[..i + 1][..i] == txs[..i];
  }
}
