/** What execution, filtering and installing mean, transaction by transaction and account by account. */
module LedgerLaws {
  import opened Common
  import opened Ledger

  // ----- Execution -----

  /** The balance of an account after a transaction that debits and credits as told. */
  function Moved(st: Accounts, tx: Tx, debit: bool, credit: bool, a: Addr): int {
    BalanceOf(st, a)
    - (if debit && a == tx.sender then tx.value else 0)
    + (if credit && a == tx.recipient then tx.value else 0)
  }

  /** A second stage credits the recipient where it lives; a first stage debits the sender where it lives and
      credits the recipient where it lives; a broker transaction does both here, wherever the accounts live; and
      a debit that is not covered stops the whole transaction. */
  lemma ExecutionMeans(st: Accounts, i: nat, tx: Tx, s: Shard, p: Placement, a: Addr)
    ensures var (from, to) := (p.Of(tx.sender) == s, p.Of(tx.recipient) == s);
            BalanceOf(ExecTx(st, i, tx, s, p), a) ==
            if tx.relayed then Moved(st, tx, false, to || tx.hasBroker, a)
            else if tx.hasBroker then
              if BalanceOf(st, tx.sender) < tx.value then BalanceOf(st, a) else Moved(st, tx, true, true, a)
            else if from then
              if BalanceOf(st, tx.sender) < tx.value then BalanceOf(st, a) else Moved(st, tx, true, to, a)
            else Moved(st, tx, false, to, a)
  {
  }

  /** A new account starts with the initial balance and the position of its first transaction as nonce; an
      existing one keeps its nonce. */
  lemma NoncesStay(st: Accounts, i: nat, tx: Tx, s: Shard, p: Placement, a: Addr)
    ensures var st' := ExecTx(st, i, tx, s, p);
            && (a in st ==> a in st' && st'[a].nonce == st[a].nonce)
            && (a !in st && a in st' ==> st'[a].nonce == i)
  {
  }

  // ----- Filters keep order and copies -----

  /** The positions a filter kept: in order, and nothing else was dropped. */
  ghost predicate KeptAt(xs: seq<Tx>, ys: seq<Tx>, at: seq<nat>) {
    && |at| == |ys|
    && (forall i :: 0 <= i < |at| ==> at[i] < |xs| && ys[i] == xs[at[i]])
    && (forall i, j :: 0 <= i < j < |at| ==> at[i] < at[j])
  }

  lemma KeptOneMore(xs: seq<Tx>, ys: seq<Tx>, at: seq<nat>, x: Tx)
    requires KeptAt(xs, ys, at)
    ensures KeptAt(xs + [x], ys, at) && KeptAt(xs + [x], ys + [x], at + [|xs|])
  {
  }

  /** Exactly the positions with a hash that is not listed stay, in order. */
  lemma {:induction false} WithoutKeepsOrder(txs: seq<Tx>, hs: set<Bytes>) returns (at: seq<nat>)
    ensures KeptAt(txs, Without(txs, hs), at)
    ensures forall k: nat :: k < |txs| ==> (k in at <==> txs[k].hash !in hs)
  {
    if txs == [] {
      at := [];
    } else {
      var n := |txs| - 1;
      at := WithoutKeepsOrder(txs[..n], hs);
      KeptOneMore(txs[..n], Without(txs[..n], hs), at, txs[n]);
      assert txs == txs[..n] + [txs[n]];
      assert forall k: nat :: k in at ==> k < n;
      if txs[n].hash !in hs {
        at := at + [n];
      }
    }
  }

  /** The hash is usable, not executed, and does not occur earlier in the list. */
  predicate FirstUsable(txs: seq<Tx>, executed: set<Bytes>, k: nat)
    requires k < |txs|
  {
    txs[k].hash != [] && txs[k].hash !in executed && forall j :: 0 <= j < k ==> txs[j].hash != txs[k].hash
  }

  /** Exactly the first usable copy of every hash stays, in order. */
  lemma {:induction false} FreshKeepsFirst(txs: seq<Tx>, executed: set<Bytes>) returns (at: seq<nat>)
    ensures KeptAt(txs, Fresh(txs, executed), at)
    ensures forall k: nat :: k < |txs| ==> (k in at <==> FirstUsable(txs, executed, k))
  {
    if txs == [] {
      at := [];
    } else {
      var n := |txs| - 1;
      at := FreshKeepsFirst(txs[..n], executed);
      KeptOneMore(txs[..n], Fresh(txs[..n], executed), at, txs[n]);
      assert txs == txs[..n] + [txs[n]];
      assert forall k: nat :: k in at ==> k < n;
      assert forall k: nat :: k < n ==> (FirstUsable(txs, executed, k) <==> FirstUsable(txs[..n], executed, k));
      EarlierHash(txs, n);
      if FirstUsable(txs, executed, n) {
        at := at + [n];
      }
    }
  }

  lemma EarlierHash(txs: seq<Tx>, n: nat)
    requires n < |txs|
    ensures txs[n].hash in HashSet(txs[..n]) <==> exists j :: 0 <= j < n && txs[j].hash == txs[n].hash
  {
    if j :| 0 <= j < n && txs[j].hash == txs[n].hash {
      assert txs[..n][j] == txs[j];
    }
  }

  // ----- Installing -----

  /** The last position that lists an account, if any. */
  ghost predicate LastListed(ac: seq<Addr>, a: Addr, k: nat) {
    k < |ac| && ac[k] == a && forall j :: k < j < |ac| ==> ac[j] != a
  }

  /** An account of this shard gets the state listed last for it; any other keeps what it had. */
  lemma {:induction false} InstallingMeans(st: Accounts, ac: seq<Addr>, states: seq<Account>, s: Shard, p: Placement,
                                           a: Addr)
    requires |ac| == |states|
    ensures var st' := Installed(st, ac, states, s, p);
            if p.Of(a) == s && a in ac
            then a in st' && exists k: nat :: LastListed(ac, a, k) && st'[a] == states[k]
            else (a in st' <==> a in st) && (a in st ==> st'[a] == st[a])
  {
    if ac != [] {
      var n := |ac| - 1;
      InstallingMeans(st, ac[..n], states[..n], s, p, a);
      assert ac == ac[..n] + [ac[n]];
      if p.Of(a) == s && a in ac {
        if ac[n] == a {
          assert LastListed(ac, a, n);
        } else {
          var k: nat :| LastListed(ac[..n], a, k) && Installed(st, ac[..n], states[..n], s, p)[a] == states[..n][k];
          assert LastListed(ac, a, k) && states[k] == states[..n][k];
        }
      }
    }
  }
}
