/** More that holds over every run of the rollout: what a batch is worth, when buffers are handed over, and what
    the counters count. */
module RolloutLaws {
  import opened Rollout

  // ----- What a batch is worth -----

  lemma {:induction false} EqualRewards(actions: seq<Action>, r: real)
    requires -1.0 <= r <= 1.0 && forall i :: 0 <= i < |actions| ==> actions[i].localReward == r
    ensures ClipSum(actions) == |actions| as real * r
  {
    if actions != [] {
      EqualRewards(actions[..|actions| - 1], r);
      assert |actions| as real * r == (|actions| - 1) as real * r + r;
    }
  }

  /** Local and global weights add up: a batch whose local rewards and batch reward all equal r, within [-1, 1],
      is worth scale times r; a batch without placements only its global part. */
  lemma EqualRewardsAreWorthThat(p: Params, b: Batch, r: real)
    requires -1.0 <= r <= 1.0 && b.reward == r && forall i :: 0 <= i < |b.actions| ==> b.actions[i].localReward == r
    ensures BatchValue(p, b) == if b.actions == [] then p.scale * (1.0 - p.localWeight) * r else p.scale * r
  {
    if b.actions != [] {
      EqualRewards(b.actions, r);
      var n := |b.actions| as real;
      assert n * r / n == r;
      assert p.scale * p.localWeight * r + p.scale * (1.0 - p.localWeight) * r == p.scale * r;
    }
  }

  /** A batch reward beyond the bounds counts as the bound. */
  lemma RewardsSaturate(p: Params, actions: seq<Action>, reward: real)
    ensures reward > 1.0 ==> BatchValue(p, Batch(actions, reward)) == BatchValue(p, Batch(actions, 1.0))
    ensures reward < -1.0 ==> BatchValue(p, Batch(actions, reward)) == BatchValue(p, Batch(actions, -1.0))
  {
  }

  // ----- Errors -----

  /** How a batch ends: a batch without placements needs a pending transition; one with placements needs none
      pending and only policy actions, and otherwise keeps the transitions of those before the first other one.
      Every batch is counted, whether or not it ends in an error. */
  lemma OutcomesExactly(p: Params, s: Collector, b: Batch)
    requires s.pending ==> s.buffer != []
    ensures var (s', outcome) := AddBatch(p, s, b);
            && s'.executed == s.executed + 1 && s'.batches == s.batches + 1
            && (outcome == Done <==> if b.actions == [] then s.pending
                                     else !s.pending && forall i :: 0 <= i < |b.actions| ==> b.actions[i].isPpo)
            && (outcome == NoPlacementYet <==> b.actions == [] && !s.pending)
            && (outcome == DecisionSkipped <==> b.actions != [] && s.pending)
            && (outcome in {NoPlacementYet, DecisionSkipped} ==> s'.buffer == s.buffer)
            && (outcome == NotPpo ==>
                  exists k :: 0 <= k < |b.actions| && !b.actions[k].isPpo
                              && (forall i :: 0 <= i < k ==> b.actions[i].isPpo)
                              && s.buffer <= s'.buffer && |s'.buffer| == |s.buffer| + k && !s'.pending)
  {
    var k := PpoPrefix(b.actions);
    if k < |b.actions| {
      assert !b.actions[k].isPpo;
    }
  }

  // ----- Handing over -----

  /** At a decision the buffer is handed over exactly when a transition was pending and both minima are met;
      otherwise it keeps its length. */
  lemma HandedOverExactly(p: Params, s: Collector)
    requires s.pending ==> s.buffer != []
    ensures var s' := BeforeDecision(p, s);
            var full := s.pending && |s.buffer| >= p.minActions && s.batches >= p.minBatches;
            && !s'.pending && |AllOf(s')| == |AllOf(s)|
            && (full ==> s'.buffer == [] && s'.batches == 0 && |s'.flushed| == |s.flushed| + |s.buffer|)
            && (!full ==> s'.flushed == s.flushed && |s'.buffer| == |s.buffer| && s'.batches == s.batches)
  {
  }

  // ----- Counters and ends -----

  function Placements(bs: seq<Batch>): nat {
    if bs == [] then 0 else Placements(bs[..|bs| - 1]) + |bs[|bs| - 1].actions|
  }

  function Revisits(bs: seq<Batch>): nat {
    if bs == [] then 0 else Revisits(bs[..|bs| - 1]) + (if bs[|bs| - 1].actions == [] then 1 else 0)
  }

  /** The sum of the batches' values without their local parts; of all batches, or of those without placements. */
  function GlobalPart(p: Params, bs: seq<Batch>, revisitsOnly: bool): real {
    if bs == [] then 0.0 else
      var b := bs[|bs| - 1];
      GlobalPart(p, bs[..|bs| - 1], revisitsOnly)
      + (if revisitsOnly && b.actions != [] then 0.0 else BatchValue(p, Batch([], b.reward)))
  }

  /** One transition per placement, none of them terminal, and counters and sums that count the batches. */
  ghost predicate Counts(p: Params, s: Collector, bs: seq<Batch>) {
    && s.executed == |bs| && s.revisitOnly == Revisits(bs) && s.batches <= s.executed
    && s.globalSum == GlobalPart(p, bs, false) && s.revisitSum == GlobalPart(p, bs, true)
    && |AllOf(s)| == Placements(bs) && (forall i :: 0 <= i < |AllOf(s)| ==> !AllOf(s)[i].done)
    && (s.pending ==> s.buffer != [])
  }

  lemma WithLastKeepsDone(flushed: seq<Transition>, buffer: seq<Transition>, t: Transition)
    requires buffer != [] && !t.done && forall i :: 0 <= i < |flushed + buffer| ==> !(flushed + buffer)[i].done
    ensures |flushed + WithLast(buffer, t)| == |flushed + buffer|
    ensures forall i :: 0 <= i < |flushed + WithLast(buffer, t)| ==> !(flushed + WithLast(buffer, t))[i].done
  {
    forall i | 0 <= i < |flushed + buffer|
      ensures !(flushed + WithLast(buffer, t))[i].done
    {
      assert !(flushed + buffer)[i].done;
    }
  }

  lemma DecisionCounts(p: Params, s: Collector, bs: seq<Batch>)
    requires Counts(p, s, bs)
    ensures Counts(p, BeforeDecision(p, s), bs)
  {
    if s.pending {
      assert Last(s.buffer) == AllOf(s)[|AllOf(s)| - 1];
      var t := Last(s.buffer).(discount := Pow(p.gamma, s.elapsed));
      WithLastKeepsDone(s.flushed, s.buffer, t);
      FlushKeepsAll(s.(buffer := WithLast(s.buffer, t), pending := false));
    }
  }

  lemma {:induction false} PlacedNotDone(p: Params, b: Batch, k: nat)
    requires k <= |b.actions|
    ensures forall i :: 0 <= i < k ==> !Placed(p, b, k)[i].done
  {
    if k > 0 {
      PlacedNotDone(p, b, k - 1);
    }
  }

  lemma BatchCounts(p: Params, s: Collector, bs: seq<Batch>, b: Batch)
    requires Counts(p, s, bs) && AddBatch(p, s, b).1 == Done
    ensures Counts(p, AddBatch(p, s, b).0, bs + [b])
  {
    assert (bs + [b])[..|bs|] == bs;
    if b.actions == [] {
      assert Last(s.buffer) == AllOf(s)[|AllOf(s)| - 1];
      var t := Last(s.buffer);
      WithLastKeepsDone(s.flushed, s.buffer, t.(reward := t.reward + Later(p.gamma, s.elapsed, GlobalReward(p, b))));
    } else {
      PlacedNotDone(p, b, |b.actions|);
      var all := s.flushed + (s.buffer + Placed(p, b, |b.actions|));
      assert all == AllOf(s) + Placed(p, b, |b.actions|);
    }
  }

  lemma {:induction false} RunCounts(p: Params, es: seq<Event>, s: Collector)
    requires RunsTo(p, es, s)
    ensures Counts(p, s, BatchesOf(es))
  {
    if es != [] {
      var init, e := es[..|es| - 1], es[|es| - 1];
      var m :| RunsTo(p, init, m) && (m.pending ==> m.buffer != []) && Step(p, m, e) == (s, Done);
      RunCounts(p, init, m);
      match e
      case Decide =>
        DecisionCounts(p, m, BatchesOf(init));
        assert BatchesOf(es) == BatchesOf(init);
      case RunBatch(b) =>
        BatchCounts(p, m, BatchesOf(init), b);
        assert BatchesOf(es) == BatchesOf(init) + [b];
    }
  }

  /** When the epoch of an error-free run is finished, exactly its last transition is terminal, and it discounts
      everything after it to nothing. */
  lemma OnlyTheEndIsTerminal(p: Params, es: seq<Event>, s: Collector)
    requires RunsTo(p, es, s) && s.buffer != []
    ensures var ts := Finish(s).flushed;
            && |ts| == Placements(BatchesOf(es)) > 0
            && (forall i :: 0 <= i < |ts| ==> (ts[i].done <==> i == |ts| - 1))
            && ts[|ts| - 1].discount == 0.0
  {
    RunCounts(p, es, s);
    var all, ts := AllOf(s), Finish(s).flushed;
    assert forall i :: 0 <= i < |ts| - 1 ==> ts[i] == all[i];
  }
}
