/** The continuous rollout as an object whose fields every call updates. */
module RolloutNode {
  import opened Rollout

  class ContinuousRollout {
    const p: Params
    var buffer: seq<Transition>
    var updates: seq<seq<Transition>>
    var batches: nat
    var pending: bool
    var elapsed: nat
    var executed: nat
    var revisitOnly: nat
    var globalSum: real
    var revisitSum: real

    /** The collector these fields stand for; every update took over what the buffer held. */
    ghost function View(): Collector
      reads this
    {
      Collector(buffer, Joined(updates), batches, pending, elapsed, executed, revisitOnly, globalSum, revisitSum)
    }

    ghost predicate Valid()
      reads this
    {
      pending ==> buffer != []
    }

    constructor (p: Params)
      ensures Valid() && View() == EMPTY && this.p == p
    {
      this.p := p;
      buffer, updates, batches, pending, elapsed := [], [], 0, false, 0;
      executed, revisitOnly, globalSum, revisitSum := 0, 0, 0.0, 0.0;
    }

    /** Hands the buffer to an update of the agent. */
    method Update()
      modifies this`buffer, this`updates, this`batches
      ensures View() == Flush(old(View())) && buffer == []
    {
      JoinedAppend(updates, buffer);
      updates := updates + [buffer];
      buffer, batches := [], 0;
    }

    /** The next real decision fixes the discount of the pending transition. */
    method BeforeDecision()
      requires Valid()
      modifies this
      ensures Valid() && View() == Rollout.BeforeDecision(p, old(View())) && !pending
    {
      if !pending {
        return;
      }
      var t := Last(buffer);
      buffer := WithLast(buffer, t.(discount := Pow(p.gamma, elapsed)));
      pending := false;
      if |buffer| >= p.minActions && batches >= p.minBatches {
        Update();
      }
    }

    /** One executed batch. On an error the transitions before the offending action stay in the buffer. */
    method AddBatch(b: Batch) returns (outcome: Outcome)
      requires Valid()
      modifies this
      ensures (View(), outcome) == Rollout.AddBatch(p, old(View()), b)
      ensures Valid()
    {
      executed, batches := executed + 1, batches + 1;
      var global := GlobalReward(p, b);
      globalSum := globalSum + global;
      if b.actions == [] {
        revisitOnly, revisitSum := revisitOnly + 1, revisitSum + global;
        if !pending {
          return NoPlacementYet;
        }
        var t := Last(buffer);
        buffer := WithLast(buffer, t.(reward := t.reward + Later(p.gamma, elapsed, global)));
        elapsed := elapsed + 1;
        return Done;
      }
      if pending {
        return DecisionSkipped;
      }
      var placed, ok := Transitions(p, b);
      buffer := buffer + placed;
      if !ok {
        return NotPpo;
      }
      pending, elapsed := true, 1;
      return Done;
    }

    /** The end of the epoch closes the last transition. */
    method Finish()
      modifies this
      ensures Valid() && View() == Rollout.Finish(old(View()))
    {
      if buffer != [] {
        buffer := WithLast(buffer, Last(buffer).(discount := 0.0, done := true));
        Update();
      }
      pending := false;
    }
  }

  function Joined(parts: seq<seq<Transition>>): seq<Transition> {
    if parts == [] then [] else Joined(parts[..|parts| - 1]) + parts[|parts| - 1]
  }

  lemma JoinedAppend(parts: seq<seq<Transition>>, part: seq<Transition>)
    ensures Joined(parts + [part]) == Joined(parts) + part
  {
    assert (parts + [part])[..|parts|] == parts;
  }

  /** The transitions of a batch up to its first action that did not come from the policy. */
  method Transitions(p: Params, b: Batch) returns (ts: seq<Transition>, ok: bool)
    requires b.actions != []
    ensures ts == Placed(p, b, PpoPrefix(b.actions))
    ensures ok <==> PpoPrefix(b.actions) == |b.actions|
  {
    ts := [];
    var n := |b.actions|;
    for i := 0 to n
      invariant ts == Placed(p, b, i)
      invariant forall j :: 0 <= j < i ==> b.actions[j].isPpo
    {
      if !b.actions[i].isPpo {
        return ts, false;
      }
      var reward := LocalReward(p, b, i);
      if i == n - 1 {
        reward := reward + GlobalReward(p, b);
      }
      ts := ts + [Transition(reward, 1.0, false)];
    }
    ok := true;
  }
}
