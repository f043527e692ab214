/** Every interleaving of callers of the informer factory, and of the informers they
    start: one step is what a goroutine does between two points where another's doing
    can be seen (pkg/generated/informers/externalversions/factory.go). */
module FactorySteps {
  import opened Common
  import opened InformerFactory

  type Tid = nat

  /** Where a caller is. */
  datatype Pc =
    | Idle
    | Starting(todo: set<Type>)               // in Start's loop
    | Marking(key: Type, todo: set<Type>)     // wg.Go is done, the mark is not set
    | Registering(key: Type)                  // in InformerFor
    | ShuttingDown                            // in Shutdown, with the lock
    | Waiting                                 // in Shutdown, at wg.Wait
    | Syncing(snapshot: map<Type, Informer>)  // in WaitForCacheSync, after the lock

  predicate HoldsLock(pc: Pc) {
    pc.Starting? || pc.Marking? || pc.Registering? || pc.ShuttingDown?
  }

  datatype State = State(
    view: View,
    lock: Option<Tid>,
    pcs: map<Tid, Pc>,
    wg: int,
    // the goroutines, by the position of their launch
    running: set<nat>,       // whose informer runs
    counted: set<nat>,       // that have not yet told the wait group
    // history
    answers: set<Entry>,     // what InformerFor has returned
    shutdownReturned: bool)

  function PcOf(s: State, tid: Tid): Pc {
    if tid in s.pcs then s.pcs[tid] else Idle
  }

  const INITIAL := State(View(map[], {}, false, []), None, map[], 0, {}, {}, {}, false)

  datatype Step =
    | StartLock(tid: Tid)
    | StartSkip(tid: Tid, key: Type)
    | StartLaunch(tid: Tid, key: Type)
    | StartMark(tid: Tid)
    | StartUnlock(tid: Tid)
    | RegisterLock(tid: Tid, key: Type)
    | RegisterUnlock(tid: Tid, made: Informer)
    | ShutdownLock(tid: Tid)
    | ShutdownUnlock(tid: Tid)
    | ShutdownReturn(tid: Tid)
    | SyncSnapshot(tid: Tid)
    | SyncReturn(tid: Tid)
    | InformerStops(g: nat)
    | GoroutineDone(g: nat)

  predicate Enabled(s: State, step: Step) {
    match step
    case StartLock(tid) => s.lock.None? && PcOf(s, tid).Idle?
    case StartSkip(tid, t) => PcOf(s, tid).Starting? && t in PcOf(s, tid).todo && t in s.view.started
    case StartLaunch(tid, t) =>
      PcOf(s, tid).Starting? && t in PcOf(s, tid).todo && t !in s.view.started && t in s.view.informers
    case StartMark(tid) => PcOf(s, tid).Marking?
    case StartUnlock(tid) => PcOf(s, tid) == Starting({})
    case RegisterLock(tid, _) => s.lock.None? && PcOf(s, tid).Idle?
    case RegisterUnlock(tid, _) => PcOf(s, tid).Registering?
    case ShutdownLock(tid) => s.lock.None? && PcOf(s, tid).Idle?
    case ShutdownUnlock(tid) => PcOf(s, tid).ShuttingDown?
    case ShutdownReturn(tid) => PcOf(s, tid).Waiting? && s.wg == 0
    case SyncSnapshot(tid) => s.lock.None? && PcOf(s, tid).Idle?
    case SyncReturn(tid) => PcOf(s, tid).Syncing?
    case InformerStops(g) => g in s.running
    case GoroutineDone(g) => g in s.counted && g !in s.running
  }

  function At(s: State, tid: Tid, pc: Pc): State {
    s.(pcs := s.pcs[tid := pc])
  }

  function Locked(s: State, tid: Tid, pc: Pc): State {
    At(s, tid, pc).(lock := Some(tid))
  }

  function Unlocked(s: State, tid: Tid, pc: Pc): State {
    At(s, tid, pc).(lock := None)
  }

  function After(s: State, step: Step): State
    requires Enabled(s, step)
  {
    match step
    case StartLock(tid) =>
      if s.view.shuttingDown then s else Locked(s, tid, Starting(s.view.informers.Keys))
    case StartSkip(tid, t) => At(s, tid, Starting(PcOf(s, tid).todo - {t}))
    case StartLaunch(tid, t) =>
      var g := |s.view.launches|;
      At(s, tid, Marking(t, PcOf(s, tid).todo))
        .(view := s.view.(launches := s.view.launches + [Entry(t, s.view.informers[t])]),
          wg := s.wg + 1, running := s.running + {g}, counted := s.counted + {g})
    case StartMark(tid) =>
      var pc := PcOf(s, tid);
      At(s, tid, Starting(pc.todo - {pc.key})).(view := s.view.(started := s.view.started + {pc.key}))
    case StartUnlock(tid) => Unlocked(s, tid, Idle)
    case RegisterLock(tid, t) => Locked(s, tid, Registering(t))
    case RegisterUnlock(tid, made) =>
      var t := PcOf(s, tid).key;
      var view' := RegisterSpec(s.view, t, made);
      Unlocked(s, tid, Idle).(view := view', answers := s.answers + {Entry(t, view'.informers[t])})
    case ShutdownLock(tid) => Locked(s, tid, ShuttingDown)
    case ShutdownUnlock(tid) => Unlocked(s, tid, Waiting).(view := ShutdownSpec(s.view))
    case ShutdownReturn(tid) => At(s, tid, Idle).(shutdownReturned := true)
    case SyncSnapshot(tid) => At(s, tid, Syncing(StartedInformers(s.view)))
    case SyncReturn(tid) => At(s, tid, Idle)
    case InformerStops(g) => s.(running := s.running - {g})
    case GoroutineDone(g) => s.(counted := s.counted - {g}, wg := s.wg - 1)
  }

  // ------------------------------------------------------------------- invariant

  /** The view as it is once a mark that is due has been set. */
  function Settled(s: State): View {
    match s.lock
    case None => s.view
    case Some(tid) =>
      match PcOf(s, tid)
      case Marking(t, _) => s.view.(started := s.view.started + {t})
      case _ => s.view
  }

  predicate LockIsExclusive(s: State) {
    && (forall tid | tid in s.pcs :: HoldsLock(s.pcs[tid]) ==> s.lock == Some(tid))
    && (s.lock.Some? ==> HoldsLock(PcOf(s, s.lock.value)))
  }

  /** The caller in Start's loop has to see to every type not yet marked. */
  predicate LoopOnTrack(s: State) {
    s.lock.Some? ==>
      match PcOf(s, s.lock.value)
      case Starting(todo) =>
        !s.view.shuttingDown && todo <= s.view.informers.Keys <= s.view.started + todo
      case Marking(t, todo) =>
        !s.view.shuttingDown && todo <= s.view.informers.Keys <= s.view.started + todo && t in todo && t !in s.view.started
      case _ => true
  }

  predicate WaitGroupCounts(s: State) {
    && s.wg == |s.counted|
    && s.running <= s.counted
    && (forall g | g in s.counted :: g < |s.view.launches|)
  }

  predicate AnswersStand(s: State) {
    forall e | e in s.answers :: e.key in s.view.informers && s.view.informers[e.key] == e.informer
  }

  predicate SnapshotStands(s: State, pc: Pc) {
    pc.Syncing? ==>
      forall t | t in pc.snapshot :: t in s.view.started && t in s.view.informers && s.view.informers[t] == pc.snapshot[t]
  }

  predicate ShutdownHolds(s: State) {
    && (forall tid | tid in s.pcs :: s.pcs[tid].Waiting? ==> s.view.shuttingDown)
    && (s.shutdownReturned ==> s.view.shuttingDown && s.counted == {})
  }

  predicate Inv(s: State) {
    && LockIsExclusive(s)
    && LoopOnTrack(s)
    && Coherent(Settled(s))
    && WaitGroupCounts(s)
    && AnswersStand(s)
    && (forall tid | tid in s.pcs :: SnapshotStands(s, s.pcs[tid]))
    && ShutdownHolds(s)
  }

  /** What one step, and so any number of steps, can change. */
  predicate Grows(s: State, s': State) {
    && (forall t | t in s.view.informers :: t in s'.view.informers && s'.view.informers[t] == s.view.informers[t])
    && s.view.launches <= s'.view.launches
    && s.view.started <= s'.view.started
    && s.answers <= s'.answers
    && (s.view.shuttingDown ==> s'.view.shuttingDown && s'.view.launches == s.view.launches)
    && (s.shutdownReturned ==> s'.shutdownReturned)
  }

  lemma InitialHolds()
    ensures Inv(INITIAL)
  {
  }

  lemma StepKeepsLock(s: State, step: Step)
    requires LockIsExclusive(s) && Enabled(s, step)
    ensures LockIsExclusive(After(s, step))
  {
  }

  lemma StepKeepsLoop(s: State, step: Step)
    requires LockIsExclusive(s) && LoopOnTrack(s) && Enabled(s, step)
    ensures LoopOnTrack(After(s, step))
  {
  }

  lemma StepKeepsCoherent(s: State, step: Step)
    requires LockIsExclusive(s) && LoopOnTrack(s) && Coherent(Settled(s)) && Enabled(s, step)
    ensures Coherent(Settled(After(s, step)))
  {
    hide Coherent;
    match step {
      case StartLaunch(tid, t) =>
        assert s.lock == Some(tid);
        LaunchIsCoherent(s.view, t);
      case RegisterUnlock(tid, made) =>
        assert s.lock == Some(tid);
        RegisteringIsCoherent(s.view, PcOf(s, tid).key, made);
      case ShutdownUnlock(tid) =>
        assert s.lock == Some(tid);
        ShutdownIsCoherent(s.view);
      case _ =>
        assert Settled(After(s, step)) == Settled(s);
    }
  }

  lemma RegisteringIsCoherent(v: View, t: Type, made: Informer)
    requires Coherent(v)
    ensures Coherent(RegisterSpec(v, t, made))
  {
  }

  lemma ShutdownIsCoherent(v: View)
    requires Coherent(v)
    ensures Coherent(ShutdownSpec(v))
  {
  }

  lemma StepKeepsCount(s: State, step: Step)
    requires WaitGroupCounts(s) && Enabled(s, step)
    ensures WaitGroupCounts(After(s, step))
  {
  }

  lemma StepGrows(s: State, step: Step)
    requires LockIsExclusive(s) && LoopOnTrack(s) && Enabled(s, step)
    ensures Grows(s, After(s, step))
  {
  }

  lemma StepKeepsAnswers(s: State, step: Step)
    requires AnswersStand(s) && Enabled(s, step) && Grows(s, After(s, step))
    ensures AnswersStand(After(s, step))
  {
  }

  lemma StepKeepsSnapshots(s: State, step: Step)
    requires (forall tid | tid in s.pcs :: SnapshotStands(s, s.pcs[tid])) && Enabled(s, step) && Grows(s, After(s, step))
    ensures forall tid | tid in After(s, step).pcs :: SnapshotStands(After(s, step), After(s, step).pcs[tid])
  {
  }

  lemma LaunchesBeforeShutdown(s: State, tid: Tid, t: Type)
    requires LockIsExclusive(s) && LoopOnTrack(s) && Enabled(s, StartLaunch(tid, t))
    ensures !s.view.shuttingDown
  {
  }

  lemma CountZero(s: State)
    requires WaitGroupCounts(s)
    ensures s.wg == 0 <==> s.counted == {}
  {
  }

  lemma StepKeepsShutdown(s: State, step: Step)
    requires ShutdownHolds(s) && WaitGroupCounts(s) && LockIsExclusive(s) && LoopOnTrack(s) && Enabled(s, step)
    ensures ShutdownHolds(After(s, step))
  {
    hide WaitGroupCounts, LockIsExclusive, LoopOnTrack;
    CountZero(s);
    if step.StartLaunch? {
      LaunchesBeforeShutdown(s, step.tid, step.key);
    }
    assert forall tid | tid in s.pcs :: PcOf(s, tid) == s.pcs[tid];
  }

  lemma StepKeepsInv(s: State, step: Step)
    requires Inv(s) && Enabled(s, step)
    ensures Inv(After(s, step)) && Grows(s, After(s, step))
  {
    hide LockIsExclusive, LoopOnTrack, Coherent, Settled, WaitGroupCounts, AnswersStand, SnapshotStands, ShutdownHolds, Grows, After;
    StepKeepsLock(s, step);
    StepKeepsLoop(s, step);
    StepKeepsCoherent(s, step);
    StepKeepsCount(s, step);
    StepGrows(s, step);
    StepKeepsAnswers(s, step);
    StepKeepsSnapshots(s, step);
    StepKeepsShutdown(s, step);
  }

  // ------------------------------------------------------------------------ runs

  /** A run: the states it goes through, and the steps between them. */
  predicate IsRun(trace: seq<State>, steps: seq<Step>) {
    && |trace| == |steps| + 1
    && trace[0] == INITIAL
    && forall i | 0 <= i < |steps| :: Enabled(trace[i], steps[i]) && trace[i + 1] == After(trace[i], steps[i])
  }

  lemma {:induction false} InvAlong(trace: seq<State>, steps: seq<Step>, i: nat)
    requires IsRun(trace, steps) && i < |trace|
    ensures Inv(trace[i])
  {
    hide Inv, Grows, After, Enabled;
    if i == 0 {
      InitialHolds();
    } else {
      InvAlong(trace, steps, i - 1);
      StepKeepsInv(trace[i - 1], steps[i - 1]);
    }
  }

  lemma {:induction false} GrowsAlong(trace: seq<State>, steps: seq<Step>, i: nat, j: nat)
    requires IsRun(trace, steps) && i <= j < |trace|
    ensures Grows(trace[i], trace[j])
    decreases j - i
  {
    hide Inv, Grows, After, Enabled;
    if i == j {
      GrowsSelf(trace[i]);
    } else {
      GrowsAlong(trace, steps, i, j - 1);
      InvAlong(trace, steps, j - 1);
      StepKeepsInv(trace[j - 1], steps[j - 1]);
      GrowsFurther(trace[i], trace[j - 1], trace[j]);
    }
  }

  lemma GrowsSelf(s: State)
    ensures Grows(s, s)
  {
  }

  lemma GrowsFurther(s1: State, s2: State, s3: State)
    requires Grows(s1, s2) && Grows(s2, s3)
    ensures Grows(s1, s3)
  {
  }

  /** In every state of every run: no type's informer was launched twice, and what was
      launched is what is registered; only registered types are marked as started; the
      wait group counts the goroutines, which include all whose informer runs. */
  lemma SafeAlways(trace: seq<State>, steps: seq<Step>, i: nat)
    requires IsRun(trace, steps) && i < |trace|
    ensures var v := trace[i].view;
            && LaunchedOnce(v.launches)
            && (forall e | e in v.launches :: e.key in v.informers && v.informers[e.key] == e.informer)
            && v.started <= v.informers.Keys
            && (forall t | t in v.started :: exists e :: e in v.launches && e.key == t)
    ensures trace[i].wg == |trace[i].counted| && trace[i].running <= trace[i].counted
  {
    hide IsRun;
    InvAlong(trace, steps, i);
    assert Coherent(Settled(trace[i]));
    hide LaunchedOnce, LockIsExclusive, AnswersStand, SnapshotStands, ShutdownHolds;
    var s := trace[i];
    if s.lock.Some? && PcOf(s, s.lock.value).Marking? {
      hide WaitGroupCounts;
      var key := PcOf(s, s.lock.value).key;
      assert Settled(s).started == s.view.started + {key};
    }
  }

  /** Whatever happens between two states of a run: the informer registered for a type
      stays, and so every caller who asked for it was given the same; once the flag is
      set nothing is launched; once some Shutdown has returned no informer runs. */
  lemma SafeFromThenOn(trace: seq<State>, steps: seq<Step>, i: nat, j: nat)
    requires IsRun(trace, steps) && i <= j < |trace|
    ensures forall t | t in trace[i].view.informers ::
              t in trace[j].view.informers && trace[j].view.informers[t] == trace[i].view.informers[t]
    ensures forall d, e | d in trace[i].answers && e in trace[j].answers && d.key == e.key :: d.informer == e.informer
    ensures trace[i].view.launches <= trace[j].view.launches
    ensures trace[i].view.shuttingDown ==> trace[j].view.shuttingDown && trace[j].view.launches == trace[i].view.launches
    ensures (exists tid :: tid in trace[i].pcs && trace[i].pcs[tid].Waiting?) ==> trace[j].view.launches == trace[i].view.launches
    ensures trace[i].shutdownReturned ==> trace[j].running == {} && trace[j].wg == 0
  {
    InvAlong(trace, steps, i);
    InvAlong(trace, steps, j);
    GrowsAlong(trace, steps, i, j);
    hide IsRun, LockIsExclusive, LoopOnTrack, Coherent, SnapshotStands;
  }

  // --------------------------------------------- the locked sections as one action

  /** The caller who takes the step. */
  function Mover(step: Step): Option<Tid> {
    if step.InformerStops? || step.GoroutineDone? then None else Some(step.tid)
  }

  /** While one caller has the lock, nobody else changes what it guards. */
  lemma OthersKeepView(s: State, step: Step, tid: Tid)
    requires LockIsExclusive(s) && Enabled(s, step) && s.lock == Some(tid) && Mover(step) != Some(tid)
    ensures var s' := After(s, step); s'.view == s.view && s'.lock == s.lock && PcOf(s', tid) == PcOf(s, tid)
  {
    assert forall t | t in s.pcs :: PcOf(s, t) == s.pcs[t];
  }

  lemma {:induction false} NothingMovesWhileWaiting(trace: seq<State>, steps: seq<Step>, a: nat, b: nat, tid: Tid)
    requires IsRun(trace, steps) && a <= b < |trace| && trace[a].lock == Some(tid)
    requires forall k | a <= k < b :: Mover(steps[k]) != Some(tid)
    ensures trace[b].lock == Some(tid) && trace[b].view == trace[a].view && PcOf(trace[b], tid) == PcOf(trace[a], tid)
    decreases b - a
  {
    hide Inv, After, Enabled;
    if a < b {
      NothingMovesWhileWaiting(trace, steps, a, b - 1, tid);
      InvAlong(trace, steps, b - 1);
      LockKept(trace[b - 1]);
      OthersKeepView(trace[b - 1], steps[b - 1], tid);
    }
  }

  lemma LockKept(s: State)
    requires Inv(s)
    ensures LockIsExclusive(s) && LoopOnTrack(s)
  {
  }

  /** A call of InformerFor, from taking the lock to releasing it, does to the guarded
      fields what the method does alone, whatever others do meanwhile. */
  lemma InformerForIsAtomic(trace: seq<State>, steps: seq<Step>, i: nat, j: nat, tid: Tid, t: Type, made: Informer)
    requires IsRun(trace, steps) && i < j < |steps|
    requires steps[i] == RegisterLock(tid, t) && steps[j] == RegisterUnlock(tid, made)
    requires forall k | i < k < j :: Mover(steps[k]) != Some(tid)
    ensures trace[j + 1].view == RegisterSpec(trace[i].view, t, made)
    ensures Entry(t, trace[j + 1].view.informers[t]) in trace[j + 1].answers
  {
    hide Inv;
    assert trace[i + 1] == After(trace[i], steps[i]) && trace[j + 1] == After(trace[j], steps[j]);
    NothingMovesWhileWaiting(trace, steps, i + 1, j, tid);
  }

  lemma ShutdownIsAtomic(trace: seq<State>, steps: seq<Step>, i: nat, j: nat, tid: Tid)
    requires IsRun(trace, steps) && i < j < |steps|
    requires steps[i] == ShutdownLock(tid) && steps[j] == ShutdownUnlock(tid)
    requires forall k | i < k < j :: Mover(steps[k]) != Some(tid)
    ensures trace[j + 1].view == ShutdownSpec(trace[i].view)
  {
    hide Inv;
    assert trace[i + 1] == After(trace[i], steps[i]) && trace[j + 1] == After(trace[j], steps[j]);
    NothingMovesWhileWaiting(trace, steps, i + 1, j, tid);
  }

  predicate InStart(s: State, tid: Tid) {
    s.lock == Some(tid) && (PcOf(s, tid).Starting? || PcOf(s, tid).Marking?)
  }

  lemma StepInStart(s: State, step: Step, tid: Tid)
    requires LockIsExclusive(s) && Enabled(s, step) && InStart(s, tid) && step != StartUnlock(tid)
    ensures InStart(After(s, step), tid)
    ensures After(s, step).view.informers == s.view.informers && After(s, step).view.shuttingDown == s.view.shuttingDown
  {
    if Mover(step) != Some(tid) {
      OthersKeepView(s, step, tid);
    }
  }

  lemma {:induction false} StaysInStart(trace: seq<State>, steps: seq<Step>, a: nat, b: nat, tid: Tid)
    requires IsRun(trace, steps) && a <= b < |trace| && InStart(trace[a], tid)
    requires forall k | a <= k < b :: steps[k] != StartUnlock(tid)
    ensures InStart(trace[b], tid)
    ensures trace[b].view.informers == trace[a].view.informers && trace[b].view.shuttingDown == trace[a].view.shuttingDown
    decreases b - a
  {
    hide Inv, After, Enabled, InStart;
    if a < b {
      StaysInStart(trace, steps, a, b - 1, tid);
      InvAlong(trace, steps, b - 1);
      LockKept(trace[b - 1]);
      StepInStart(trace[b - 1], steps[b - 1], tid);
    }
  }

  /** A call of Start, however its loop is interleaved with the rest, does to the
      guarded fields what the method does alone. */
  lemma StartIsAtomic(trace: seq<State>, steps: seq<Step>, i: nat, j: nat, tid: Tid)
    requires IsRun(trace, steps) && i < j < |steps| && !trace[i].view.shuttingDown
    requires steps[i] == StartLock(tid) && steps[j] == StartUnlock(tid)
    requires forall k | i < k < j :: steps[k] != StartUnlock(tid)
    ensures StartSpec(trace[i].view, trace[j + 1].view)
  {
    hide Coherent, StartSpec, Grows;
    assert trace[i + 1] == After(trace[i], steps[i]) && trace[j + 1] == After(trace[j], steps[j]);
    StaysInStart(trace, steps, i + 1, j, tid);
    InvAlong(trace, steps, i);
    InvAlong(trace, steps, j);
    GrowsAlong(trace, steps, i, j);
    StartFinished(trace[i], trace[j], tid);
  }

  lemma StartFinished(s: State, s': State, tid: Tid)
    requires Inv(s) && Inv(s') && Grows(s, s') && s.lock.None? && !s.view.shuttingDown
    requires s'.lock == Some(tid) && PcOf(s', tid) == Starting({})
    requires s'.view.informers == s.view.informers && !s'.view.shuttingDown
    ensures StartSpec(s.view, s'.view)
  {
    hide LockIsExclusive, WaitGroupCounts, AnswersStand, SnapshotStands, ShutdownHolds, StartSpec;
    StartedAll(s.view, s'.view);
  }

  /** Once a call of Shutdown, by anyone, has set the flag, a call of Start by anyone
      is over as soon as it has the lock: it meets the method's contract, and what had
      been launched by the time of the Shutdown is all that ever is. */
  lemma StartAfterShutdown(trace: seq<State>, steps: seq<Step>, i: nat, j: nat, tid: Tid, tid': Tid)
    requires IsRun(trace, steps) && i < j < |steps|
    requires steps[i] == ShutdownUnlock(tid) && steps[j] == StartLock(tid')
    ensures StartSpec(trace[j].view, trace[j + 1].view)
    ensures trace[j + 1].lock.None? && PcOf(trace[j + 1], tid').Idle?
    ensures trace[j + 1].view.launches == trace[i].view.launches
  {
    hide Inv, Coherent;
    assert trace[i + 1] == After(trace[i], steps[i]) && trace[j + 1] == After(trace[j], steps[j]);
    GrowsAlong(trace, steps, i + 1, j);
  }

  // -------------------------------------------------------------------- progress

  /** The steps left to a caller before it gives up the lock. */
  function Work(pc: Pc): nat {
    match pc
    case Starting(todo) => 2 * |todo| + 1
    case Marking(_, todo) => 2 * |todo|
    case Registering(_) => 1
    case ShuttingDown => 1
    case _ => 0
  }

  /** The holder of the lock always has a step to take, and every step it takes brings
      it nearer to releasing the lock. */
  lemma HolderCanMove(s: State, tid: Tid) returns (step: Step)
    requires Inv(s) && s.lock == Some(tid)
    ensures Enabled(s, step) && Mover(step) == Some(tid)
  {
    LockKept(s);
    match PcOf(s, tid) {
      case Starting(todo) =>
        if t :| t in todo {
          step := if t in s.view.started then StartSkip(tid, t) else StartLaunch(tid, t);
        } else {
          step := StartUnlock(tid);
        }
      case Marking(_, _) => step := StartMark(tid);
      case Registering(_) => step := RegisterUnlock(tid, Informer(0, 0, None));
      case ShuttingDown => step := ShutdownUnlock(tid);
    }
  }

  lemma HolderAdvances(s: State, step: Step, tid: Tid)
    requires Inv(s) && s.lock == Some(tid) && Enabled(s, step)
    ensures Mover(step) == Some(tid) ==> Work(PcOf(After(s, step), tid)) < Work(PcOf(s, tid))
    ensures Mover(step) != Some(tid) ==> PcOf(After(s, step), tid) == PcOf(s, tid) && After(s, step).lock == s.lock
  {
    LockKept(s);
    if Mover(step) != Some(tid) {
      OthersKeepView(s, step, tid);
    }
  }

  /** Shutdown's wait ends as soon as the informers have stopped: until it can return
      some goroutine can move on, no step adds to what is left, and each move of a
      goroutine takes from it. */
  lemma WaitEnds(s: State, tid: Tid) returns (step: Step)
    requires Inv(s) && PcOf(s, tid).Waiting?
    ensures Enabled(s, step) && (step == ShutdownReturn(tid) || Mover(step) == None)
    ensures step == ShutdownReturn(tid) <==> s.running == {} && s.counted == {}
    ensures Enabled(s, ShutdownReturn(tid)) <==> s.running == {} && s.counted == {}
  {
    CountZero(s);
    if g :| g in s.running {
      step := InformerStops(g);
    } else if g :| g in s.counted {
      step := GoroutineDone(g);
    } else {
      step := ShutdownReturn(tid);
    }
  }

  lemma NothingAddsToTheWait(s: State, step: Step)
    requires Inv(s) && s.view.shuttingDown && Enabled(s, step)
    ensures |After(s, step).running| + |After(s, step).counted| + (if Mover(step) == None then 1 else 0)
            == |s.running| + |s.counted|
  {
    LockKept(s);
    if step.StartLaunch? {
      LaunchesBeforeShutdown(s, step.tid, step.key);
    }
  }

  /** How many of the steps from a to b are moves of goroutines. */
  function GoroutineMoves(steps: seq<Step>, a: nat, b: nat): (n: nat)
    requires a <= b <= |steps|
    ensures n <= b - a
    decreases b
  {
    if a == b then 0 else GoroutineMoves(steps, a, b - 1) + if Mover(steps[b - 1]) == None then 1 else 0
  }

  function Left(s: State): nat {
    |s.running| + |s.counted|
  }

  /** The whole wait is bounded, in every run: from the flag on, the goroutines make
      as many moves as there were left, less those still left, and Shutdown can return
      when they have made them all. */
  lemma {:induction false} WaitIsBounded(trace: seq<State>, steps: seq<Step>, i: nat, j: nat)
    requires IsRun(trace, steps) && i <= j < |trace| && trace[i].view.shuttingDown
    ensures GoroutineMoves(steps, i, j) + Left(trace[j]) == Left(trace[i])
    ensures GoroutineMoves(steps, i, j) == Left(trace[i]) <==> trace[j].running == {} && trace[j].counted == {}
    decreases j - i
  {
    hide Inv, After, Enabled;
    if i < j {
      WaitIsBounded(trace, steps, i, j - 1);
      InvAlong(trace, steps, j - 1);
      GrowsAlong(trace, steps, i, j - 1);
      NothingAddsToTheWait(trace[j - 1], steps[j - 1]);
    }
  }
}
