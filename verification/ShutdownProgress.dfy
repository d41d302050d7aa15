/** Handlers are admitted while nobody is stopping, and a stop can always be carried to its end. */
module ShutdownProgress {
  import opened Common
  import opened Shutdown

  lemma OneStep(s: State, step: Step)
    requires Enabled(s, step)
    ensures Reaches(s, [step], Next(s, step))
  {
    assert [step][1..] == [];
    assert Reaches(Next(s, step), [], Next(s, step));
  }

  lemma {:induction false} ThenReaches(s: State, steps: seq<Step>, mid: State, rest: seq<Step>, s': State)
    requires Reaches(s, steps, mid) && Reaches(mid, rest, s')
    ensures Reaches(s, steps + rest, s')
    decreases |steps|
  {
    if steps == [] {
      assert steps + rest == rest;
    } else {
      ThenReaches(Next(s, steps[0]), steps[1..], mid, rest, s');
      assert (steps + rest)[1..] == steps[1..] + rest;
    }
  }

  lemma TwoSteps(s: State, a: Step, b: Step)
    requires Enabled(s, a) && Enabled(Next(s, a), b)
    ensures Reaches(s, [a, b], Next(Next(s, a), b))
  {
    OneStep(s, a);
    OneStep(Next(s, a), b);
    ThenReaches(s, [a], Next(s, a), [b], Next(Next(s, a), b));
    assert [a] + [b] == [a, b];
  }

  // ----- Admission -----

  /** A launcher that holds the lifecycle lock is admitted exactly when the node is not stopping, in two steps
      of its own; its handler is then counted. */
  lemma LauncherIsAdmitted(s: State, t: Tid, conn: bool)
    requires t in s.threads && s.threads[t] == LaunchHoldsMu(conn)
    ensures var s' := Next(Next(s, Go(t)), Go(t));
            && Reaches(s, [Go(t), Go(t)], s')
            && (!s.stop ==> t in AdmittedSet(s'.threads) && s'.inflight == s.inflight + 1)
            && (s.stop ==> t !in AdmittedSet(s'.threads) && s'.inflight == s.inflight && s'.mu.None?)
  {
    TwoSteps(s, Go(t), Go(t));
  }

  /** An admitted launcher can start its handler under any unused name, and a started handler can finish. */
  lemma AdmittedRuns(s: State, t: Tid, conn: bool, h: Tid)
    requires t in s.threads && s.threads[t] == LaunchAdded(conn) && h !in s.threads
    ensures var s' := Next(Next(s, Go(t)), Spawn(t, h));
            Reaches(s, [Go(t), Spawn(t, h)], s') && s'.threads[h] == Running && Enabled(s', Go(h))
  {
    TwoSteps(s, Go(t), Spawn(t, h));
  }

  /** While nobody is stopping, a request that finds the pool free is dispatched; a synchronous handler that has
      finished frees the pool, and its connection reads on. */
  lemma RequestsAreHandled(s: State, t: Tid)
    requires t in s.threads && !s.stop
    ensures s.threads[t] == WantsPool && s.pool.None? ==>
              var s' := Next(Next(s, Go(t)), Go(t));
              Reaches(s, [Go(t), Go(t)], s') && s'.threads[t] == Dispatching && s'.pool == Some(t)
    ensures s.threads[t] == GotRequest ==> Enabled(s, Go(t)) && Next(s, Go(t)).threads[t] == WantsPool
    ensures s.threads[t] == InSync ==>
              var s' := Next(Next(s, Go(t)), Go(t));
              Reaches(s, [Go(t), Go(t)], s') && s'.threads[t] == Reading && s'.pool.None?
  {
    if (s.threads[t] == WantsPool && s.pool.None?) || s.threads[t] == InSync {
      TwoSteps(s, Go(t), Go(t));
    }
  }

  // ----- Completion -----

  lemma {:induction false} UnusedTid(S: set<Tid>) returns (h: Tid)
    ensures forall x :: x in S ==> x < h
    decreases |S|
  {
    if S == {} {
      h := 0;
    } else {
      var x :| x in S;
      var rest := UnusedTid(S - {x});
      h := if rest <= x then x + 1 else rest;
      assert forall y :: y in S ==> y == x || y in S - {x};
    }
  }

  /** A stop is under way and waits for admitted handlers. */
  ghost predicate Waiting(s: State, t: Tid) {
    Inv(s) && t in s.threads && s.threads[t] == StopWaiting
  }

  lemma FinishRunning(s: State, t: Tid, u: Tid) returns (steps: seq<Step>, s': State)
    requires Waiting(s, t) && u in s.threads && s.threads[u] == Running
    ensures Reaches(s, steps, s') && Waiting(s', t) && |AdmittedSet(s'.threads)| == |AdmittedSet(s.threads)| - 1
  {
    steps, s' := [Go(u)], Next(s, Go(u));
    OneStep(s, Go(u));
    StepKeeps(s, Go(u));
    AdmittedAt(s.threads, u, Ended);
  }

  lemma FinishSpawning(s: State, t: Tid, u: Tid) returns (steps: seq<Step>, s': State)
    requires Waiting(s, t) && u in s.threads && s.threads[u].LaunchSpawning?
    ensures Reaches(s, steps, s') && Waiting(s', t) && |AdmittedSet(s'.threads)| == |AdmittedSet(s.threads)| - 1
  {
    var h := UnusedTid(s.threads.Keys);
    assert h !in s.threads;
    var mid := Next(s, Spawn(u, h));
    OneStep(s, Spawn(u, h));
    StepKeeps(s, Spawn(u, h));
    var rest;
    rest, s' := FinishRunning(mid, t, h);
    ThenReaches(s, [Spawn(u, h)], mid, rest, s');
    steps := [Spawn(u, h)] + rest;
  }

  lemma FinishOne(s: State, t: Tid, u: Tid) returns (steps: seq<Step>, s': State)
    requires Waiting(s, t) && u in AdmittedSet(s.threads)
    ensures Reaches(s, steps, s') && Waiting(s', t) && |AdmittedSet(s'.threads)| == |AdmittedSet(s.threads)| - 1
  {
    StoppedLaunches(s, t, u);
    if s.threads[u] == Running {
      steps, s' := FinishRunning(s, t, u);
    } else {
      steps, s' := FinishSpawning(s, t, u);
    }
  }

  /** Once a stop waits, every admitted thread is about to start its handler or is the handler. */
  lemma StoppedLaunches(s: State, t: Tid, u: Tid)
    requires Waiting(s, t) && u in AdmittedSet(s.threads)
    ensures u in s.threads && (s.threads[u] == Running || s.threads[u].LaunchSpawning?)
  {
  }

  lemma {:induction false} FinishAll(s: State, t: Tid) returns (steps: seq<Step>, s': State)
    requires Waiting(s, t)
    ensures Reaches(s, steps, s') && Waiting(s', t) && s'.inflight == 0
    decreases |AdmittedSet(s.threads)|
  {
    if AdmittedSet(s.threads) == {} {
      steps, s' := [], s;
    } else {
      var u :| u in AdmittedSet(s.threads);
      var first, mid := FinishOne(s, t, u);
      var rest;
      rest, s' := FinishAll(mid, t);
      ThenReaches(s, first, mid, rest, s');
      steps := first + rest;
    }
  }

  /** From every reachable state in which a stop waits for handlers, the handlers can finish, after which the
      databases are closed and completion is published. */
  lemma StopCompletes(before: seq<Step>, s: State, t: Tid) returns (steps: seq<Step>, s': State)
    requires Shutdown.Reaches(INIT, before, s) && t in s.threads && s.threads[t] == StopWaiting
    ensures Reaches(s, steps, s') && s'.published && s'.closes == 1
  {
    RunKeeps(INIT, before, s);
    var first, mid := FinishAll(s, t);
    var rest;
    rest, s' := CloseDown(mid, t);
    ThenReaches(s, first, mid, rest, s');
    steps := first + rest;
  }

  lemma CloseDown(s: State, t: Tid) returns (steps: seq<Step>, s': State)
    requires t in s.threads && s.threads[t] == StopWaiting && s.inflight == 0 && s.closes == 0
    ensures Reaches(s, steps, s') && s'.published && s'.closes == 1
  {
    var closing := Next(s, Go(t));
    s' := Next(Next(closing, Go(t)), Go(t));
    OneStep(s, Go(t));
    TwoSteps(closing, Go(t), Go(t));
    ThenReaches(s, [Go(t)], closing, [Go(t), Go(t)], s');
    steps := [Go(t)] + [Go(t), Go(t)];
  }

  /** The first stop request wins the flag and waits. */
  lemma StopBegins(s: State, t: Tid)
    requires t in s.threads && s.threads[t] == StopHoldsMu && !s.stop
    ensures var s' := Next(Next(Next(s, Go(t)), Go(t)), Go(t));
            && Reaches(s, [Go(t)] + [Go(t), Go(t)], s') && s'.stop && s'.mu.None? && s'.threads[t] == StopWaiting
  {
    OneStep(s, Go(t));
    TwoSteps(Next(s, Go(t)), Go(t), Go(t));
    ThenReaches(s, [Go(t)], Next(s, Go(t)), [Go(t), Go(t)], Next(Next(Next(s, Go(t)), Go(t)), Go(t)));
  }
}
