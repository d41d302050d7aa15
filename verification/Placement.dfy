/** The placement of new addresses in the offline environment, as values: which shard every address is on,
    and how many addresses were placed on every shard. */
module Placement {
  import opened Common
  import opened Candidate
  import opened CandidateTwins
  import opened BatchLoads

  /** An account name; the empty string is a name of its own kind. */
  datatype Address = Empty | Name(text: string)

  datatype Tx = Tx(sender: Address, recipient: Address, realAccounts: bool)

  /** What one placement request meets: the affinity of the address and the shard the policy proposes. */
  datatype Offer = Offer(affinity: seq<real>, proposed: int)

  /** A placement: the shard, the proposal, the mask it was chosen under and the inputs of that mask. */
  datatype Action = Action(addr: Address, shard: Sid, proposed: int, mask: seq<int>, inp: Input)

  /** What stays fixed while one batch is placed: configuration, hash shards and recent windows. */
  datatype Setup = Setup(c: Config, hash: Address -> Sid, ws: seq<Window>)

  // ----- Counting addresses -----

  function OnShard(m: map<Address, Sid>, s: Sid): set<Address> {
    set a | a in m && m[a] == s
  }

  function PlacedOn(m: map<Address, Sid>, s: Sid): set<Address> {
    set a | a in m && a != Empty && m[a] == s
  }

  ghost predicate InRange(m: map<Address, Sid>, n: nat) {
    forall a :: a in m ==> m[a] < n
  }

  ghost predicate CountsAll(m: map<Address, Sid>, load: seq<nat>) {
    forall s: Sid :: s < |load| ==> load[s] == |OnShard(m, s)|
  }

  /** The load counts every address but the empty one. */
  ghost predicate CountsPlaced(m: map<Address, Sid>, load: seq<nat>) {
    forall s: Sid :: s < |load| ==> load[s] == |PlacedOn(m, s)|
  }

  /** The load is exact as long as no transaction had an empty end, and one short afterwards. */
  lemma ExactUnlessEmpty(m: map<Address, Sid>, load: seq<nat>)
    requires CountsPlaced(m, load) && InRange(m, |load|)
    ensures CountsAll(m, load) <==> Empty !in m
  {
    if Empty in m {
      var s := m[Empty];
      assert Empty in OnShard(m, s);
      assert OnShard(m, s) == PlacedOn(m, s) + {Empty};
      assert |OnShard(m, s)| == |PlacedOn(m, s)| + 1;
    } else {
      forall s: Sid | s < |load|
        ensures load[s] == |OnShard(m, s)|
      {
        assert PlacedOn(m, s) == OnShard(m, s);
      }
    }
  }

  lemma PlaceCounts(m: map<Address, Sid>, load: seq<nat>, a: Address, shard: Sid)
    requires CountsPlaced(m, load) && a !in m && a != Empty && shard < |load|
    ensures CountsPlaced(m[a := shard], Bump(load, shard))
  {
    forall s: Sid | s < |load|
      ensures Bump(load, shard)[s] == |PlacedOn(m[a := shard], s)|
    {
      PlacedOnStep(m, a, shard, s);
    }
  }

  lemma PlacedOnStep(m: map<Address, Sid>, a: Address, shard: Sid, s: Sid)
    requires a !in m && a != Empty
    ensures PlacedOn(m[a := shard], s) == if s == shard then PlacedOn(m, s) + {a} else PlacedOn(m, s)
    ensures a !in PlacedOn(m, s)
  {
  }

  // ----- A list of placements -----

  function Apply(m: map<Address, Sid>, acts: seq<Action>): map<Address, Sid> {
    if acts == [] then m else Apply(m, acts[..|acts| - 1])[acts[|acts| - 1].addr := acts[|acts| - 1].shard]
  }

  function Tally(load: seq<nat>, acts: seq<Action>): (r: seq<nat>)
    ensures |r| == |load|
  {
    if acts == [] then load else
      var t, s := Tally(load, acts[..|acts| - 1]), acts[|acts| - 1].shard;
      if s < |t| then Bump(t, s) else t
  }

  /** The proposed shard if it is a candidate, the best candidate otherwise. */
  ghost predicate Chosen(C: set<Sid>, scores: seq<real>, proposed: int, shard: Sid)
    requires C <= Below(|scores|)
  {
    && shard in C
    && (if 0 <= proposed < |scores| && proposed in C then shard == proposed else IsBest(C, scores, shard))
  }

  /** A new, non-empty address went to a shard that its own mask, built from the loads of that moment, allows. */
  ghost predicate Allowed(setup: Setup, m: map<Address, Sid>, load: seq<nat>, act: Action) {
    var (c, inp, ws) := (setup.c, act.inp, setup.ws);
    && act.addr !in m && act.addr != Empty
    && inp.shardLoad == load && inp.hashSid == setup.hash(act.addr)
    && IsMask(act.mask, |load|, PyCandidates(c, inp, ws))
    && act.shard < |load| && act.mask[act.shard] == 1
    && Chosen(PyCandidates(c, inp, ws), PyScores(c, inp, PyPressures(c, inp, ws)), act.proposed, act.shard)
  }

  ghost predicate Recorded(setup: Setup, m: map<Address, Sid>, load: seq<nat>, acts: seq<Action>) {
    forall i :: 0 <= i < |acts| ==> Allowed(setup, Apply(m, acts[..i]), Tally(load, acts[..i]), acts[i])
  }

  lemma RecordOne(setup: Setup, m: map<Address, Sid>, load: seq<nat>, acts: seq<Action>, act: Action)
    requires Recorded(setup, m, load, acts)
    requires Allowed(setup, Apply(m, acts), Tally(load, acts), act)
    ensures Recorded(setup, m, load, acts + [act])
  {
    var all := acts + [act];
    forall i | 0 <= i < |all|
      ensures Allowed(setup, Apply(m, all[..i]), Tally(load, all[..i]), all[i])
    {
      PrefixOfAppend(acts, act, i);
      assert i < |acts| ==> Allowed(setup, Apply(m, acts[..i]), Tally(load, acts[..i]), acts[i]);
    }
  }

  lemma PrefixOfAppend(acts: seq<Action>, act: Action, i: nat)
    requires i <= |acts|
    ensures (acts + [act])[..i] == acts[..i] && (acts + [act])[i] == if i < |acts| then acts[i] else act
    ensures acts[..|acts|] == acts
  {
  }

  lemma AppendAction(m: map<Address, Sid>, load: seq<nat>, acts: seq<Action>, act: Action)
    requires act.shard < |load|
    ensures Apply(m, acts + [act]) == Apply(m, acts)[act.addr := act.shard]
    ensures Tally(load, acts + [act]) == Bump(Tally(load, acts), act.shard)
  {
    assert (acts + [act])[..|acts|] == acts;
  }

  /** Placing never moves an address: the old map survives, every action's address ends on its shard,
      and nothing else is added. */
  lemma {:induction false} PlacedNeverMove(setup: Setup, m: map<Address, Sid>, load: seq<nat>, acts: seq<Action>)
    requires Recorded(setup, m, load, acts)
    ensures Extends(m, acts, Apply(m, acts))
  {
    if acts != [] {
      var n := |acts| - 1;
      PrefixRecorded(setup, m, load, acts);
      PlacedNeverMove(setup, m, load, acts[..n]);
      PlacedStep(m, acts);
    }
  }

  lemma PrefixRecorded(setup: Setup, m: map<Address, Sid>, load: seq<nat>, acts: seq<Action>)
    requires Recorded(setup, m, load, acts) && acts != []
    ensures Recorded(setup, m, load, acts[..|acts| - 1])
    ensures Allowed(setup, Apply(m, acts[..|acts| - 1]), Tally(load, acts[..|acts| - 1]), acts[|acts| - 1])
  {
    var n := |acts| - 1;
    forall i | 0 <= i < n
      ensures Allowed(setup, Apply(m, acts[..n][..i]), Tally(load, acts[..n][..i]), acts[..n][i])
    {
      assert acts[..n][..i] == acts[..i] && acts[..n][i] == acts[i];
      assert Allowed(setup, Apply(m, acts[..i]), Tally(load, acts[..i]), acts[i]);
    }
    assert Allowed(setup, Apply(m, acts[..n]), Tally(load, acts[..n]), acts[n]);
  }

  ghost predicate Extends(m: map<Address, Sid>, acts: seq<Action>, m': map<Address, Sid>) {
    && (forall a :: a in m ==> a in m' && m'[a] == m[a])
    && (forall i :: 0 <= i < |acts| ==> acts[i].addr in m' && m'[acts[i].addr] == acts[i].shard)
    && (forall a :: a in m' ==> a in m || exists i :: 0 <= i < |acts| && acts[i].addr == a)
  }

  lemma PlacedStep(m: map<Address, Sid>, acts: seq<Action>)
    requires acts != []
    requires Extends(m, acts[..|acts| - 1], Apply(m, acts[..|acts| - 1]))
    requires acts[|acts| - 1].addr !in Apply(m, acts[..|acts| - 1])
    ensures Extends(m, acts, Apply(m, acts))
  {
    var n := |acts| - 1;
    var m0, m1 := Apply(m, acts[..n]), Apply(m, acts);
    forall i | 0 <= i <= n
      ensures acts[i].addr in m1 && m1[acts[i].addr] == acts[i].shard
    {
      if i < n {
        assert acts[..n][i] == acts[i];
        assert acts[i].addr in m0;
      }
    }
    forall a | a in m1
      ensures a in m || exists i :: 0 <= i < |acts| && acts[i].addr == a
    {
      if a in m0 && a !in m {
        var i :| 0 <= i < n && acts[..n][i].addr == a;
        assert acts[i].addr == a;
      } else {
        assert a in m || acts[n].addr == a;
      }
    }
  }

  // ----- The requests of one batch -----

  /** The order in which a batch asks for placements: all senders first in mode 1, pairwise otherwise. */
  function Requests(mode: int, txs: seq<Tx>): (rs: seq<Address>)
    ensures |rs| == 2 * |txs|
  {
    if mode == 1 then
      seq(|txs|, i requires 0 <= i < |txs| => txs[i].sender) + seq(|txs|, i requires 0 <= i < |txs| => txs[i].recipient)
    else
      seq(2 * |txs|, i requires 0 <= i < 2 * |txs| => if i % 2 == 0 then txs[i / 2].sender else txs[i / 2].recipient)
  }

  /** In mode 1 every sender is asked for before any recipient; otherwise each transaction's sender and then its
      recipient. */
  lemma RequestOrder(mode: int, txs: seq<Tx>, i: nat)
    requires i < |txs|
    ensures var (rs, n) := (Requests(mode, txs), |txs|);
            && rs[if mode == 1 then i else 2 * i] == txs[i].sender
            && rs[if mode == 1 then n + i else 2 * i + 1] == txs[i].recipient
  {
  }

  function EndsOf(txs: seq<Tx>): set<Address> {
    (set i | 0 <= i < |txs| :: txs[i].sender) + (set i | 0 <= i < |txs| :: txs[i].recipient)
  }

  /** Both orders ask for the same addresses. */
  lemma RequestsAreEnds(mode: int, txs: seq<Tx>, a: Address)
    ensures a in Requests(mode, txs) <==> a in EndsOf(txs)
  {
    var rs, n := Requests(mode, txs), |txs|;
    if a in EndsOf(txs) {
      var i :| 0 <= i < n && (txs[i].sender == a || txs[i].recipient == a);
      if txs[i].sender == a {
        assert rs[if mode == 1 then i else 2 * i] == a;
      } else {
        assert rs[if mode == 1 then n + i else 2 * i + 1] == a;
      }
    }
    if a in rs {
      var j :| 0 <= j < 2 * n && rs[j] == a;
      var i := if mode == 1 then (if j < n then j else j - n) else j / 2;
      assert 0 <= i < n && (txs[i].sender == a || txs[i].recipient == a);
    }
  }

  // ----- Looking shards up -----

  function ShardOf(m: map<Address, Sid>, hash: Address -> Sid, a: Address): Sid {
    if a in m then m[a] else hash(a)
  }

  function EndsAt(m: map<Address, Sid>, hash: Address -> Sid, tx: Tx): Ends {
    Ends(ShardOf(m, hash, tx.sender), ShardOf(m, hash, tx.recipient))
  }

  function Routed(m: map<Address, Sid>, hash: Address -> Sid, txs: seq<Tx>): (es: seq<Ends>)
    ensures |es| == |txs|
  {
    seq(|txs|, i requires 0 <= i < |txs| => EndsAt(m, hash, txs[i]))
  }

  /** The map with every missing address put on its hash shard. */
  function Filled(m: map<Address, Sid>, hash: Address -> Sid, names: set<Address>): map<Address, Sid> {
    map a | a in m.Keys + names :: ShardOf(m, hash, a)
  }

  lemma RoutedStep(m: map<Address, Sid>, hash: Address -> Sid, txs: seq<Tx>, i: nat)
    requires i < |txs|
    ensures Routed(m, hash, txs[..i + 1]) == Routed(m, hash, txs[..i]) + [EndsAt(m, hash, txs[i])]
    ensures EndsOf(txs[..i + 1]) == EndsOf(txs[..i]) + {txs[i].sender, txs[i].recipient}
  {
    var more, less := txs[..i + 1], txs[..i];
    forall a | a in EndsOf(less) + {txs[i].sender, txs[i].recipient}
      ensures a in EndsOf(more)
    {
      if a in EndsOf(less) {
        var j :| 0 <= j < i && (less[j].sender == a || less[j].recipient == a);
        assert more[j] == less[j];
      } else {
        assert more[i] == txs[i];
      }
    }
  }

  lemma FilledStep(m: map<Address, Sid>, hash: Address -> Sid, names: set<Address>, a: Address)
    ensures var f := Filled(m, hash, names);
            && ShardOf(f, hash, a) == ShardOf(m, hash, a)
            && Filled(m, hash, names + {a}) == if a in f then f else f[a := hash(a)]
  {
    var f := Filled(m, hash, names);
    assert (names + {a}) + m.Keys == (names + m.Keys) + {a};
  }

  /** Filling in at most the empty address leaves the loads as right as they were. */
  lemma FilledCounts(m: map<Address, Sid>, hash: Address -> Sid, names: set<Address>, load: seq<nat>)
    requires CountsPlaced(m, load) && forall a :: a in names ==> a in m || a == Empty
    ensures CountsPlaced(Filled(m, hash, names), load)
  {
    forall s: Sid | s < |load|
      ensures load[s] == |PlacedOn(Filled(m, hash, names), s)|
    {
      assert PlacedOn(Filled(m, hash, names), s) == PlacedOn(m, s);
    }
  }

  // ----- Every run of batches -----

  /** A batch as it ran: the windows it saw, its transactions and its placements. */
  datatype Batch = Batch(ws: seq<Window>, txs: seq<Tx>, acts: seq<Action>)

  function MapAfter(hash: Address -> Sid, bs: seq<Batch>): map<Address, Sid> {
    if bs == [] then map[] else
      var b := bs[|bs| - 1];
      Filled(Apply(MapAfter(hash, bs[..|bs| - 1]), b.acts), hash, EndsOf(b.txs))
  }

  function LoadAfter(n: nat, bs: seq<Batch>): (load: seq<nat>)
    ensures |load| == n
  {
    if bs == [] then seq(n, _ => 0) else Tally(LoadAfter(n, bs[..|bs| - 1]), bs[|bs| - 1].acts)
  }

  /** What one batch did: its placements were allowed one by one, and every end but the empty one is placed. */
  ghost predicate BatchRan(c: Config, hash: Address -> Sid, m: map<Address, Sid>, load: seq<nat>, b: Batch) {
    && Recorded(Setup(c, hash, b.ws), m, load, b.acts)
    && forall a :: a in EndsOf(b.txs) ==> a in Apply(m, b.acts) || a == Empty
  }

  ghost predicate Runs(c: Config, hash: Address -> Sid, n: nat, bs: seq<Batch>) {
    bs == [] || (
      var init := bs[..|bs| - 1];
      Runs(c, hash, n, init) && BatchRan(c, hash, MapAfter(hash, init), LoadAfter(n, init), bs[|bs| - 1]))
  }

  ghost predicate Sound(m: map<Address, Sid>, load: seq<nat>) {
    InRange(m, |load|) && CountsPlaced(m, load)
  }

  lemma {:induction false} ActionsCount(setup: Setup, m: map<Address, Sid>, load: seq<nat>, acts: seq<Action>)
    requires Sound(m, load) && Recorded(setup, m, load, acts)
    ensures Sound(Apply(m, acts), Tally(load, acts))
    ensures Empty in Apply(m, acts) <==> Empty in m
  {
    if acts != [] {
      var init, act := acts[..|acts| - 1], acts[|acts| - 1];
      PrefixRecorded(setup, m, load, acts);
      ActionsCount(setup, m, load, init);
      PlaceCounts(Apply(m, init), Tally(load, init), act.addr, act.shard);
    }
  }

  lemma BatchCounts(c: Config, hash: Address -> Sid, m: map<Address, Sid>, load: seq<nat>, b: Batch)
    requires Sound(m, load) && BatchRan(c, hash, m, load, b) && forall a :: hash(a) < |load|
    ensures var m' := Filled(Apply(m, b.acts), hash, EndsOf(b.txs));
            && Sound(m', Tally(load, b.acts))
            && (forall a :: a in m ==> a in m' && m'[a] == m[a])
            && (Empty in m' <==> Empty in m || Empty in EndsOf(b.txs))
  {
    ActionsCount(Setup(c, hash, b.ws), m, load, b.acts);
    PlacedNeverMove(Setup(c, hash, b.ws), m, load, b.acts);
    FilledCounts(Apply(m, b.acts), hash, EndsOf(b.txs), Tally(load, b.acts));
  }

  predicate SawEmpty(bs: seq<Batch>) {
    bs != [] && (SawEmpty(bs[..|bs| - 1]) || Empty in EndsOf(bs[|bs| - 1].txs))
  }

  lemma {:induction false} SawEmptySomewhere(bs: seq<Batch>)
    ensures SawEmpty(bs) <==> exists i :: 0 <= i < |bs| && Empty in EndsOf(bs[i].txs)
  {
    if bs != [] {
      var init := bs[..|bs| - 1];
      SawEmptySomewhere(init);
      assert forall i :: 0 <= i < |init| ==> bs[i] == init[i];
    }
  }

  lemma {:induction false} RunCounts(c: Config, hash: Address -> Sid, n: nat, bs: seq<Batch>)
    requires Runs(c, hash, n, bs) && forall a :: hash(a) < n
    ensures Sound(MapAfter(hash, bs), LoadAfter(n, bs))
    ensures Empty in MapAfter(hash, bs) <==> SawEmpty(bs)
  {
    if bs == [] {
      assert forall s :: PlacedOn(map[], s) == {};
    } else {
      var init, b := bs[..|bs| - 1], bs[|bs| - 1];
      RunCounts(c, hash, n, init);
      BatchCounts(c, hash, MapAfter(hash, init), LoadAfter(n, init), b);
    }
  }

  /** Over every run: the load counts exactly the addresses on each shard, if and only if no transaction
      ever had an empty end. */
  lemma LoadsCountAddresses(c: Config, hash: Address -> Sid, n: nat, bs: seq<Batch>)
    requires Runs(c, hash, n, bs) && forall a :: hash(a) < n
    ensures CountsAll(MapAfter(hash, bs), LoadAfter(n, bs)) <==>
            forall i :: 0 <= i < |bs| ==> Empty !in EndsOf(bs[i].txs)
  {
    RunCounts(c, hash, n, bs);
    SawEmptySomewhere(bs);
    ExactUnlessEmpty(MapAfter(hash, bs), LoadAfter(n, bs));
  }

  /** Over every run: an address keeps the shard it got. */
  lemma {:induction false} NeverMoves(c: Config, hash: Address -> Sid, n: nat, bs: seq<Batch>, k: nat, a: Address)
    requires Runs(c, hash, n, bs) && (forall x :: hash(x) < n) && k <= |bs|
    requires a in MapAfter(hash, bs[..k])
    ensures a in MapAfter(hash, bs) && MapAfter(hash, bs)[a] == MapAfter(hash, bs[..k])[a]
  {
    if k == |bs| {
      assert bs[..k] == bs;
    } else {
      var init := bs[..|bs| - 1];
      assert init[..k] == bs[..k];
      NeverMoves(c, hash, n, init, k, a);
      RunCounts(c, hash, n, init);
      BatchCounts(c, hash, MapAfter(hash, init), LoadAfter(n, init), bs[|bs| - 1]);
    }
  }

  // ----- The load simulation -----

  /** Every transaction is charged to the shards of its ends, and addresses that have
      none yet are put on their hash shard. */
  method SimulateBatchLoads(m: map<Address, Sid>, hash: Address -> Sid, txs: seq<Tx>, n: nat)
      returns (m': map<Address, Sid>, l: Loads, inner: nat, relay1: nat)
    requires InRange(m, n) && forall a :: hash(a) < n
    ensures m' == Filled(m, hash, EndsOf(txs))
    ensures Tallies(l, Routed(m, hash, txs), n)
    ensures relay1 == Count(Routed(m, hash, txs), Crossing) && inner + relay1 == |txs|
  {
    m', l, inner, relay1 := m, NoLoads(n), 0, 0;
    TalliesNothing(n);
    assert Filled(m, hash, EndsOf(txs[..0])) == m && Routed(m, hash, txs[..0]) == [];
    for i := 0 to |txs|
      invariant m' == Filled(m, hash, EndsOf(txs[..i]))
      invariant Tallies(l, Routed(m, hash, txs[..i]), n)
      invariant relay1 == Count(Routed(m, hash, txs[..i]), Crossing) && inner + relay1 == i
    {
      ghost var names, es := EndsOf(txs[..i]), Routed(m, hash, txs[..i]);
      var tx := txs[i];
      FilledStep(m, hash, names, tx.sender);
      FilledStep(m, hash, names + {tx.sender}, tx.recipient);
      RoutedStep(m, hash, txs, i);
      assert names + {tx.sender} + {tx.recipient} == names + {tx.sender, tx.recipient};
      var from := ShardOf(m', hash, tx.sender);
      if tx.sender !in m' {
        m' := m'[tx.sender := from];
      }
      var to := ShardOf(m', hash, tx.recipient);
      if tx.recipient !in m' {
        m' := m'[tx.recipient := to];
      }
      var e := Ends(from, to);
      TalliesStep(l, n, es, e);
      CountStep(es, e, Crossing);
      l := AddEnds(l, e);
      if from == to {
        inner := inner + 1;
      } else {
        relay1 := relay1 + 1;
      }
    }
    assert txs[..|txs|] == txs;
  }
}
