/** Admission of handlers and shutdown of a node, in every interleaving of its threads.

    Every lock operation, flag access, counter update and database close is a step of its own. Threads
    are connection readers, background routines that start handlers, and the handlers themselves; new
    ones may appear at any time. */
module Shutdown {
  import opened Common

  type Tid = nat

  /** Where a thread is. A launch runs on behalf of a connection, holding the pool lock, or of a
      background routine, which never holds it. */
  datatype Pc =
    | Reading | GotRequest | WantsPool | HoldsPool | Dispatching | InSync | Releasing | Ended
    | Background
    | LaunchWantsMu(conn: bool) | LaunchHoldsMu(conn: bool) | LaunchTested(conn: bool) | LaunchRefused(conn: bool)
    | LaunchAdded(conn: bool) | LaunchSpawning(conn: bool)
    | Running
    | StopWantsMu | StopHoldsMu | StopTested | StopRefused | StopStored | StopWaiting | StopClosing | StopClosed

  datatype State = State(
    threads: map<Tid, Pc>,
    pool: Option<Tid>,
    mu: Option<Tid>,
    stop: bool,
    inflight: int,
    closes: nat,
    published: bool)

  datatype Step =
    | Arrive(t: Tid, background: bool)
    | Go(t: Tid)
    | Leave(t: Tid)
    | Dispatch(t: Tid, pc: Pc)
    | Spawn(t: Tid, handler: Tid)

  const INIT := State(map[], None, None, false, 0, 0, false)

  predicate Enabled(s: State, step: Step) {
    match step
    case Arrive(t, _) => t !in s.threads
    case Leave(t) => t in s.threads && s.threads[t] in {Reading, Background}
    case Dispatch(t, pc) =>
      t in s.threads && s.threads[t] == Dispatching && pc in {InSync, LaunchWantsMu(true), StopWantsMu}
    case Spawn(t, h) => t in s.threads && s.threads[t].LaunchSpawning? && h !in s.threads
    case Go(t) =>
      && t in s.threads
      && match s.threads[t]
         case Ended => false
         case Dispatching => false
         case LaunchSpawning(_) => false
         case WantsPool => s.pool.None?
         case LaunchWantsMu(_) => s.mu.None?
         case StopWantsMu => s.mu.None?
         case StopWaiting => s.inflight == 0
         case _ => true
  }

  function At(s: State, t: Tid, pc: Pc): State {
    s.(threads := s.threads[t := pc])
  }

  function AfterLaunch(conn: bool): Pc {
    if conn then Releasing else Background
  }

  /** Where a thread goes next, given the stop flag it may read. */
  function GoPc(pc: Pc, stop: bool): Pc {
    match pc
    case Reading => GotRequest
    case GotRequest => if stop then Ended else WantsPool
    case WantsPool => HoldsPool
    case HoldsPool => if stop then Releasing else Dispatching
    case InSync => Releasing
    case Releasing => Reading
    case Background => LaunchWantsMu(false)
    case LaunchWantsMu(conn) => LaunchHoldsMu(conn)
    case LaunchHoldsMu(conn) => if stop then LaunchRefused(conn) else LaunchTested(conn)
    case LaunchRefused(conn) => AfterLaunch(conn)
    case LaunchTested(conn) => LaunchAdded(conn)
    case LaunchAdded(conn) => LaunchSpawning(conn)
    case Running => Ended
    case StopWantsMu => StopHoldsMu
    case StopHoldsMu => if stop then StopRefused else StopTested
    case StopTested => StopStored
    case StopRefused => Releasing
    case StopStored => StopWaiting
    case StopWaiting => StopClosing
    case StopClosing => StopClosed
    case StopClosed => Releasing
    case _ => pc
  }

  /** What a thread's step does to the shared state. */
  function GoShared(s: State, t: Tid, pc: Pc): State {
    match pc
    case WantsPool => s.(pool := Some(t))
    case Releasing => s.(pool := None)
    case LaunchWantsMu(_) => s.(mu := Some(t))
    case StopWantsMu => s.(mu := Some(t))
    case LaunchRefused(_) => s.(mu := None)
    case LaunchAdded(_) => s.(mu := None)
    case StopRefused => s.(mu := None)
    case StopStored => s.(mu := None)
    case LaunchTested(_) => s.(inflight := s.inflight + 1)
    case Running => s.(inflight := s.inflight - 1)
    case StopTested => s.(stop := true)
    case StopClosing => s.(closes := s.closes + 1)
    case StopClosed => s.(published := true)
    case _ => s
  }

  function Next(s: State, step: Step): State
    requires Enabled(s, step)
  {
    match step
    case Arrive(t, background) => At(s, t, if background then Background else Reading)
    case Leave(t) => At(s, t, Ended)
    case Dispatch(t, pc) => At(s, t, pc)
    case Spawn(t, h) => At(At(s, t, AfterLaunch(s.threads[t].conn)), h, Running)
    case Go(t) => At(GoShared(s, t, s.threads[t]), t, GoPc(s.threads[t], s.stop))
  }

  // ----- What every interleaving keeps -----

  predicate NeedsPool(pc: Pc) {
    match pc
    case HoldsPool => true
    case Dispatching => true
    case InSync => true
    case Releasing => true
    case LaunchWantsMu(conn) => conn
    case LaunchHoldsMu(conn) => conn
    case LaunchTested(conn) => conn
    case LaunchRefused(conn) => conn
    case LaunchAdded(conn) => conn
    case LaunchSpawning(conn) => conn
    case _ => pc.StopWantsMu? || pc.StopHoldsMu? || pc.StopTested? || Stopper(pc) || pc.StopRefused?
  }

  predicate NeedsMu(pc: Pc) {
    || pc.LaunchHoldsMu? || pc.LaunchTested? || pc.LaunchRefused? || pc.LaunchAdded?
    || pc.StopHoldsMu? || pc.StopTested? || pc.StopRefused? || pc.StopStored?
  }

  /** The thread that won the stop flag, until it has published completion. */
  predicate Stopper(pc: Pc) {
    pc.StopStored? || pc.StopWaiting? || pc.StopClosing? || pc.StopClosed?
  }

  /** Handlers that have been counted in and have not finished. */
  predicate Admitted(pc: Pc) {
    pc.LaunchAdded? || pc.LaunchSpawning? || pc.Running?
  }

  /** Points that can only be reached while the node is not stopping. */
  predicate NotStopping(pc: Pc) {
    pc.Dispatching? || pc.InSync? || pc.LaunchTested? || pc.StopWantsMu? || pc.StopHoldsMu? || pc.StopTested?
  }

  function AdmittedSet(threads: map<Tid, Pc>): set<Tid> {
    set t | t in threads && Admitted(threads[t])
  }

  ghost predicate Locks(s: State) {
    && (forall t :: t in s.threads && NeedsPool(s.threads[t]) ==> s.pool == Some(t))
    && (forall t :: t in s.threads && NeedsMu(s.threads[t]) ==> s.mu == Some(t))
  }

  ghost predicate Flags(s: State) {
    && (s.stop ==> forall t :: t in s.threads ==> !NotStopping(s.threads[t]))
    && (s.stop ==> forall t :: t in s.threads ==> !s.threads[t].LaunchAdded?)
    && (!s.stop ==> s.closes == 0 && !s.published && forall t :: t in s.threads ==> !Stopper(s.threads[t]))
  }

  ghost predicate Closing(s: State) {
    && (forall t :: t in s.threads && s.threads[t] in {StopStored, StopWaiting, StopClosing} ==> s.closes == 0)
    && (forall t :: t in s.threads && s.threads[t] == StopClosing ==> s.inflight == 0)
    && (forall t :: t in s.threads && s.threads[t] == StopClosed ==> s.closes == 1)
    && s.closes <= 1 && (s.closes == 1 ==> s.inflight == 0) && (s.published ==> s.closes == 1)
  }

  ghost predicate Inv(s: State) {
    Locks(s) && Flags(s) && Closing(s) && s.inflight == |AdmittedSet(s.threads)|
  }

  predicate WasAdmitted(threads: map<Tid, Pc>, t: Tid) {
    t in threads && Admitted(threads[t])
  }

  lemma SizeWithout(S: set<Tid>, t: Tid)
    ensures |S| == |S - {t}| + (if t in S then 1 else 0)
  {
    if t !in S {
      assert S - {t} == S;
    }
  }

  lemma OthersAdmitted(threads: map<Tid, Pc>, t: Tid, pc: Pc)
    ensures AdmittedSet(threads[t := pc]) - {t} == AdmittedSet(threads) - {t}
    ensures t in AdmittedSet(threads[t := pc]) <==> Admitted(pc)
  {
  }

  lemma AdmittedAt(threads: map<Tid, Pc>, t: Tid, pc: Pc)
    ensures |AdmittedSet(threads[t := pc])|
         == |AdmittedSet(threads)| - (if WasAdmitted(threads, t) then 1 else 0) + (if Admitted(pc) then 1 else 0)
  {
    OthersAdmitted(threads, t, pc);
    SizeWithout(AdmittedSet(threads), t);
    SizeWithout(AdmittedSet(threads[t := pc]), t);
  }

  lemma CountKeeps(s: State, step: Step)
    requires Enabled(s, step) && s.inflight == |AdmittedSet(s.threads)|
    ensures Next(s, step).inflight == |AdmittedSet(Next(s, step).threads)|
  {
    var s' := Next(s, step);
    match step
    case Spawn(t, h) =>
      var pc := AfterLaunch(s.threads[t].conn);
      AdmittedAt(s.threads, t, pc);
      AdmittedAt(s.threads[t := pc], h, Running);
    case Arrive(t, _) => AdmittedAt(s.threads, t, s'.threads[t]);
    case Leave(t) => AdmittedAt(s.threads, t, Ended);
    case Dispatch(t, pc) => AdmittedAt(s.threads, t, pc);
    case Go(t) => AdmittedAt(s.threads, t, s'.threads[t]);
  }

  /** A thread changes a lock only by taking it when free or giving back its own. */
  predicate OwnChange(lock: Option<Tid>, lock': Option<Tid>, t: Tid) {
    lock' == lock || (lock.None? && lock' == Some(t)) || (lock == Some(t) && lock'.None?)
  }

  lemma LocksAt(s: State, s': State, t: Tid, pc: Pc)
    requires Locks(s) && s'.threads == s.threads[t := pc]
    requires OwnChange(s.pool, s'.pool, t) && OwnChange(s.mu, s'.mu, t)
    requires (NeedsPool(pc) ==> s'.pool == Some(t)) && (NeedsMu(pc) ==> s'.mu == Some(t))
    ensures Locks(s')
  {
  }

  predicate ReleasesMu(pc: Pc) {
    pc.LaunchRefused? || pc.LaunchAdded? || pc.StopRefused? || pc.StopStored?
  }

  lemma GoNeeds(pc: Pc, stop: bool)
    ensures NeedsPool(GoPc(pc, stop)) ==> pc.WantsPool? || (NeedsPool(pc) && !pc.Releasing?)
    ensures NeedsMu(GoPc(pc, stop)) ==> pc.LaunchWantsMu? || pc.StopWantsMu? || (NeedsMu(pc) && !ReleasesMu(pc))
  {
  }

  lemma GoLockChange(s: State, t: Tid)
    requires Locks(s) && Enabled(s, Go(t))
    ensures var (s', pc) := (GoShared(s, t, s.threads[t]), s.threads[t]);
            && s'.pool == (if pc.WantsPool? then Some(t) else if pc.Releasing? then None else s.pool)
            && s'.mu == (if pc.LaunchWantsMu? || pc.StopWantsMu? then Some(t)
                         else if ReleasesMu(pc) then None else s.mu)
            && OwnChange(s.pool, s'.pool, t) && OwnChange(s.mu, s'.mu, t)
  {
  }

  lemma LocksKeep(s: State, step: Step)
    requires Enabled(s, step) && Locks(s)
    ensures Locks(Next(s, step))
  {
    match step
    case Go(t) =>
      var pc := s.threads[t];
      GoNeeds(pc, s.stop);
      GoLockChange(s, t);
      LocksAt(s, Next(s, step), t, GoPc(pc, s.stop));
    case _ => QuietLocks(s, step);
  }

  lemma QuietLocks(s: State, step: Step)
    requires Enabled(s, step) && Locks(s) && !step.Go?
    ensures Locks(Next(s, step))
  {
    match step
    case Spawn(t, h) => SpawnLocks(s, t, h);
    case Arrive(t, background) => LocksAt(s, Next(s, step), t, if background then Background else Reading);
    case Leave(t) => LocksAt(s, Next(s, step), t, Ended);
    case Dispatch(t, pc) => LocksAt(s, Next(s, step), t, pc);
  }

  lemma SpawnLocks(s: State, t: Tid, h: Tid)
    requires Enabled(s, Spawn(t, h)) && Locks(s)
    ensures Locks(Next(s, Spawn(t, h)))
  {
    var pc := AfterLaunch(s.threads[t].conn);
    LocksAt(s, At(s, t, pc), t, pc);
    LocksAt(At(s, t, pc), Next(s, Spawn(t, h)), h, Running);
  }

  lemma FlagsKeep(s: State, step: Step)
    requires Enabled(s, step) && Locks(s) && Flags(s)
    ensures Flags(Next(s, step))
  {
  }

  lemma ClosingKeep(s: State, step: Step)
    requires Enabled(s, step) && Inv(s)
    ensures Closing(Next(s, step))
  {
    if s.inflight == 0 {
      NobodyAdmitted(s);
    }
    if step.Go? {
      GoClosing(s, step.t);
    }
  }

  lemma GoClosing(s: State, t: Tid)
    requires Enabled(s, Go(t)) && Locks(s) && Flags(s) && Closing(s)
    requires s.inflight == 0 ==> forall u :: u in s.threads ==> !Admitted(s.threads[u])
    ensures Closing(Next(s, Go(t)))
  {
    if Stopper(s.threads[t]) {
      StopperMoves(s, t);
    } else {
      OtherMoves(s, t);
    }
  }

  /** The stopping thread is the only one, so only its own state matters. */
  lemma StopperMoves(s: State, t: Tid)
    requires Enabled(s, Go(t)) && Locks(s) && Closing(s) && Stopper(s.threads[t])
    ensures Closing(Next(s, Go(t)))
  {
    assert forall u :: u in s.threads && u != t ==> !Stopper(s.threads[u]) by {
      assert forall u :: u in s.threads && u != t ==> !NeedsPool(s.threads[u]);
    }
  }

  /** Nobody else closes, and the counter of admitted handlers rises only while nobody is stopping. */
  lemma OtherMoves(s: State, t: Tid)
    requires Enabled(s, Go(t)) && Flags(s) && Closing(s) && !Stopper(s.threads[t])
    requires s.inflight == 0 ==> forall u :: u in s.threads ==> !Admitted(s.threads[u])
    ensures Closing(Next(s, Go(t)))
  {
    var s', pc := Next(s, Go(t)), s.threads[t];
    assert s'.inflight == s.inflight || pc.LaunchTested? || pc.Running?;
    assert s'.closes == s.closes && s'.published == s.published;
    assert pc.LaunchTested? ==> !s.stop;
  }

  lemma NobodyAdmitted(s: State)
    requires s.inflight == |AdmittedSet(s.threads)| == 0
    ensures forall t :: t in s.threads ==> !Admitted(s.threads[t])
  {
    forall t | t in s.threads
      ensures !Admitted(s.threads[t])
    {
      assert t !in AdmittedSet(s.threads);
    }
  }

  lemma StepKeeps(s: State, step: Step)
    requires Enabled(s, step) && Inv(s)
    ensures Inv(Next(s, step))
  {
    CountKeeps(s, step);
    LocksKeep(s, step);
    FlagsKeep(s, step);
    ClosingKeep(s, step);
  }

  ghost predicate Reaches(s: State, steps: seq<Step>, s': State)
    decreases |steps|
  {
    if steps == [] then s' == s else Enabled(s, steps[0]) && Reaches(Next(s, steps[0]), steps[1..], s')
  }

  lemma {:induction false} RunKeeps(s: State, steps: seq<Step>, s': State)
    requires Inv(s) && Reaches(s, steps, s')
    ensures Inv(s')
    decreases |steps|
  {
    if steps != [] {
      StepKeeps(s, steps[0]);
      RunKeeps(Next(s, steps[0]), steps[1..], s');
    }
  }

  // ----- Safety -----

  /** A thread that may use the databases: an admitted handler or a synchronous message handler. */
  predicate UsesDatabases(pc: Pc) {
    Admitted(pc) || pc.InSync?
  }

  /** The step that closes the databases. */
  predicate IsClose(s: State, step: Step) {
    step.Go? && step.t in s.threads && s.threads[step.t] == StopClosing
  }

  /** The step that counts a handler in. */
  predicate IsAdmission(s: State, step: Step) {
    step.Go? && step.t in s.threads && s.threads[step.t].LaunchTested?
  }

  predicate IsPublication(s: State, step: Step) {
    step.Go? && step.t in s.threads && s.threads[step.t] == StopClosed
  }

  /** In every interleaving: the databases are closed at most once, only when nobody may be using them, and
      from then on nobody ever uses them; nothing is admitted once stopping began; and completion is
      published only after the close. */
  lemma ShutdownIsSafe(steps: seq<Step>, s: State, step: Step)
    requires Reaches(INIT, steps, s) && Enabled(s, step)
    ensures s.closes <= 1 && (IsClose(s, step) ==> s.closes == 0)
    ensures IsClose(s, step) || s.closes == 1 ==> forall t :: t in s.threads ==> !UsesDatabases(s.threads[t])
    ensures IsAdmission(s, step) ==> !s.stop && s.closes == 0
    ensures IsPublication(s, step) || s.published ==> s.closes == 1
  {
    assert AdmittedSet(INIT.threads) == {};
    RunKeeps(INIT, steps, s);
    if IsClose(s, step) || s.closes == 1 {
      NobodyAdmitted(s);
    }
  }
}
