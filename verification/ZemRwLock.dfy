/**
 * threads-sema/rwlock.c on threads-sema/zemaphore.h: the readers-writer lock whose two semaphores are
 * each a mutex, a condition variable and a count, with every thread's steps inside Zem_wait and Zem_post
 * interleaved.
 */
module ZemRwLock {
  import C = Counting
  import RW = RwLock
  import Z = Zemaphore

  datatype State = State(readers: int, threads: seq<RW.Pc>, left: seq<nat>, lock: Z.State, writelock: Z.State)

  /** The lock with the semaphores' counts in place of the semaphores. */
  function Abs(s: State): RW.State {
    RW.State(s.writelock.value, s.lock.value, s.readers, s.threads, s.left)
  }

  /** A step of a thread's own, or one in a call on `lock` or on `writelock`. */
  datatype Step = Local(i: nat) | OnLock(z: Z.Step) | OnWritelock(z: Z.Step)

  predicate UsesLock(pc: RW.Pc) { pc in {RW.REnter, RW.RUnlock, RW.RLeave, RW.RUnlock2} }

  predicate UsesWritelock(pc: RW.Pc) { pc in {RW.RFirst, RW.RLast, RW.WEnter, RW.Writing} }

  /** The call at pc is Zem_wait; else it is Zem_post. */
  predicate Waits(pc: RW.Pc) { pc in {RW.REnter, RW.RLeave, RW.RFirst, RW.WEnter} }

  /** The call returns with this step. */
  predicate Returns(z: Z.Step) { z.Down? || z.Up? }

  ghost predicate Init(s: State) {
    && RW.Init(Abs(s)) && Z.Init(1, s.lock) && Z.Init(1, s.writelock)
    && |s.lock.threads| == |s.writelock.threads| == |s.threads|
  }

  /** Thread z.i calls only what its place says. */
  ghost predicate Called(s: State, z: Z.Step, uses: bool) {
    && z.i < |s.threads|
    && (z.CallWait? ==> uses && Waits(s.threads[z.i]))
    && (z.CallPost? ==> uses && !Waits(s.threads[z.i]))
  }

  ghost predicate NextStep(s: State, t: State, step: Step) {
    match step
    case Local(i) =>
      && i < |s.threads| && !UsesLock(s.threads[i]) && !UsesWritelock(s.threads[i])
      && RW.Steps(Abs(s), Abs(t), i) && t.lock == s.lock && t.writelock == s.writelock
    case OnLock(z) =>
      && z.i < |s.threads| && Called(s, z, UsesLock(s.threads[z.i]))
      && Z.NextStep(s.lock, t.lock, z) && t.writelock == s.writelock
      && if Returns(z) then RW.Steps(Abs(s), Abs(t), z.i) else t == s.(lock := t.lock)
    case OnWritelock(z) =>
      && z.i < |s.threads| && Called(s, z, UsesWritelock(s.threads[z.i]))
      && Z.NextStep(s.writelock, t.writelock, z) && t.lock == s.lock
      && if Returns(z) then RW.Steps(Abs(s), Abs(t), z.i) else t == s.(writelock := t.writelock)
  }

  ghost predicate Next(s: State, t: State) { exists step :: NextStep(s, t, step) }

  ghost predicate Run(run: seq<State>) {
    |run| > 0 && Init(run[0]) && forall i | 0 <= i < |run| - 1 :: Next(run[i], run[i + 1])
  }

  // ---- the invariant ----

  const WAITING := {Z.WaitLock, Z.WaitTest, Z.Asleep, Z.Woken}

  /** A thread is inside a call on a semaphore only where the lock's code makes that call. */
  predicate Fits(pc: RW.Pc, z: Z.Pc, uses: bool) {
    z != Z.Idle ==> uses && (Waits(pc) <==> z in WAITING)
  }

  ghost predicate Placed(s: State) {
    && |s.lock.threads| == |s.writelock.threads| == |s.threads|
    && forall i | 0 <= i < |s.threads| ::
         && Fits(s.threads[i], s.lock.threads[i], UsesLock(s.threads[i]))
         && Fits(s.threads[i], s.writelock.threads[i], UsesWritelock(s.threads[i]))
  }

  ghost predicate Inv(s: State) {
    RW.Inv(Abs(s)) && Z.Inv(1, s.lock) && Z.Inv(1, s.writelock) && Placed(s)
  }

  /** Each step is a step of the lock over atomic semaphores, or invisible to it. */
  lemma StepRefines(s: State, t: State, step: Step)
    requires NextStep(s, t, step)
    ensures Abs(t) == Abs(s) || RW.Next(Abs(s), Abs(t))
  {
    match step {
      case Local(i) =>
      case OnLock(z) =>
      case OnWritelock(z) =>
    }
  }

  /** A step moves one thread, and Zem_post may wake another that stays in Zem_wait. */
  lemma ZemMoves(z: Z.State, z': Z.State, step: Z.Step, j: nat)
    requires Z.NextStep(z, z', step) && j < |z.threads|
    ensures |z'.threads| == |z.threads|
    ensures j != step.i ==> z'.threads[j] == z.threads[j] || (z.threads[j] == Z.Asleep && z'.threads[j] == Z.Woken)
    ensures j == step.i ==>
              if step.CallWait? then z'.threads[j] == Z.WaitLock
              else if step.CallPost? then z'.threads[j] == Z.PostLock
              else if Returns(step) then z'.threads[j] == Z.Idle && z.threads[j] != Z.Idle
              else && z.threads[j] != Z.Idle && z'.threads[j] != Z.Idle
                   && (z'.threads[j] in WAITING <==> z.threads[j] in WAITING)
  {
  }

  lemma RwMoves(s: RW.State, t: RW.State, i: nat, j: nat)
    requires RW.Steps(s, t, i) && j < |s.threads|
    ensures |t.threads| == |s.threads| && (j != i ==> t.threads[j] == s.threads[j])
  {
  }

  lemma StepPlaced(s: State, t: State, step: Step)
    requires Placed(s) && NextStep(s, t, step)
    ensures Placed(t)
  {
    hide Z.NextStep, RW.Steps;
    match step {
      case Local(i) =>
        forall j: nat | j < |s.threads|
          ensures |t.threads| == |s.threads| && (j != i ==> t.threads[j] == s.threads[j])
        {
          RwMoves(Abs(s), Abs(t), i, j);
        }
      case OnLock(z) =>
        forall j: nat | j < |s.threads|
          ensures |t.threads| == |s.threads| && |t.lock.threads| == |s.threads|
          ensures Fits(t.threads[j], t.lock.threads[j], UsesLock(t.threads[j]))
          ensures Fits(t.threads[j], t.writelock.threads[j], UsesWritelock(t.threads[j]))
        {
          ZemMoves(s.lock, t.lock, z, j);
          if Returns(z) { RwMoves(Abs(s), Abs(t), z.i, j); }
        }
      case OnWritelock(z) =>
        forall j: nat | j < |s.threads|
          ensures |t.threads| == |s.threads| && |t.writelock.threads| == |s.threads|
          ensures Fits(t.threads[j], t.lock.threads[j], UsesLock(t.threads[j]))
          ensures Fits(t.threads[j], t.writelock.threads[j], UsesWritelock(t.threads[j]))
        {
          ZemMoves(s.writelock, t.writelock, z, j);
          if Returns(z) { RwMoves(Abs(s), Abs(t), z.i, j); }
        }
    }
  }

  lemma StepInv(s: State, t: State, step: Step)
    requires Inv(s) && NextStep(s, t, step)
    ensures Inv(t)
  {
    hide RW.Inv, Z.Inv, Placed, RW.Steps;
    StepPlaced(s, t, step);
    StepRefines(s, t, step);
    if Abs(t) != Abs(s) {
      var i :| RW.Steps(Abs(s), Abs(t), i);
      RW.StepInv(Abs(s), Abs(t), i);
    }
    match step {
      case Local(i) =>
      case OnLock(z) => Z.NextInv(1, s.lock, t.lock, z);
      case OnWritelock(z) => Z.NextInv(1, s.writelock, t.writelock, z);
    }
  }

  lemma {:induction false} RunInv(run: seq<State>, n: nat)
    requires Run(run) && n < |run|
    ensures Inv(run[n])
  {
    hide Inv, NextStep;
    if n == 0 {
      InitInv(run[0]);
    } else {
      RunInv(run, n - 1);
      assert Next(run[n - 1], run[n - 1 + 1]);
      var step :| NextStep(run[n - 1], run[n], step);
      StepInv(run[n - 1], run[n], step);
    }
  }

  lemma InitInv(s: State)
    requires Init(s)
    ensures Inv(s)
  {
    RW.InitInv(Abs(s));
    Z.InitInv(1, s.lock);
    Z.InitInv(1, s.writelock);
  }

  // ---- main results ----

  /** Every run, seen through the counts, is a run of the lock over atomic semaphores with repetitions. */
  lemma RefinesRwLock(run: seq<State>, n: nat)
    requires Run(run) && n + 1 < |run|
    ensures RW.Init(Abs(run[0])) && RW.Inv(Abs(run[n]))
    ensures Abs(run[n + 1]) == Abs(run[n]) || RW.Next(Abs(run[n]), Abs(run[n + 1]))
  {
    hide NextStep;
    RunInv(run, n);
    assert Next(run[n], run[n + 1]);
    var step :| NextStep(run[n], run[n + 1], step);
    StepRefines(run[n], run[n + 1], step);
  }

  /** A writer is never inside with a reader or with a second writer. */
  lemma Exclusion(run: seq<State>, n: nat, i: nat, j: nat)
    requires Run(run) && n < |run| && i < |run[n].threads| && j < |run[n].threads| && i != j
    requires run[n].threads[i] == RW.Writing
    ensures run[n].threads[j] !in {RW.Reading, RW.Writing}
  {
    RunInv(run, n);
    RW.WriterAlone(Abs(run[n]), i, j);
  }

  /** A step that is not a spurious wakeup. */
  predicate Real(step: Step) { step.Local? || !step.z.Spurious? }

  /** A thread inside a call, or about to make one that need not wait, lets some thread step inside that semaphore. */
  lemma ZemSteps(z: Z.State, i: nat, waits: bool)
    requires Z.Inv(1, z) && i < |z.threads| && (waits ==> z.value > 0)
    requires z.threads[i] != Z.Idle ==> (waits <==> z.threads[i] in WAITING)
    ensures exists step, z' :: Z.NextStep(z, z', step) && ZemAllowed(step, i, waits)
  {
    hide Z.Inv;
    if z.threads[i] == Z.Idle {
      var step := if waits then Z.CallWait(i) else Z.CallPost(i);
      assert Z.NextStep(z, Z.Move(z, i, if waits then Z.WaitLock else Z.PostLock), step) && ZemAllowed(step, i, waits);
    } else if waits {
      Z.WaiterProgress(1, z, i);
      var step, z' :| Z.Real(step) && Z.NextStep(z, z', step);
      assert ZemAllowed(step, i, waits);
    } else if z.held || z.threads[i] == Z.PostHeld {
      var j := i;
      if z.held {
        Z.HeldBySomeone(1, z);
        j :| 0 <= j < |z.threads| && z.threads[j] in Z.HOLDERS;
      }
      Z.HolderSteps(z, j);
      var step, z' :| Z.Real(step) && Z.NextStep(z, z', step);
      assert ZemAllowed(step, i, waits);
    } else {
      assert Z.NextStep(z, Z.Move(z, i, Z.PostHeld).(held := true), Z.LockPost(i)) &&
               ZemAllowed(Z.LockPost(i), i, waits);
    }
  }

  /** The steps that lemma finds: inside a call, or the call of thread i itself. */
  predicate ZemAllowed(step: Z.Step, i: nat, waits: bool) {
    !step.Spurious? && (step.CallWait? ==> step.i == i && waits) && (step.CallPost? ==> step.i == i && !waits)
  }

  ghost predicate CanStep(s: State) { exists step, t :: Real(step) && NextStep(s, t, step) }

  lemma LockSteps(s: State, i: nat)
    requires Inv(s) && i < |s.threads| && UsesLock(s.threads[i]) && (Waits(s.threads[i]) ==> s.lock.value > 0)
    ensures CanStep(s)
  {
    hide RW.Inv, Z.Inv, Z.NextStep, RW.Steps;
    ZemSteps(s.lock, i, Waits(s.threads[i]));
    var z, lock' :| Z.NextStep(s.lock, lock', z) && ZemAllowed(z, i, Waits(s.threads[i]));
    ZemMover(s.lock, lock', z);
    var t := s.(lock := lock');
    if Returns(z) {
      ReturnValue(s.lock, lock', z);
      RW.FreeToStep(Abs(s), z.i);
      var a :| RW.Steps(Abs(s), a, z.i);
      LockReturn(Abs(s), a, z.i, lock'.value);
      t := State(a.readers, a.threads, a.left, lock', s.writelock);
      assert Abs(t) == a;
    }
    assert NextStep(s, t, OnLock(z)) && Real(OnLock(z));
  }

  lemma WritelockSteps(s: State, i: nat)
    requires Inv(s) && i < |s.threads| && UsesWritelock(s.threads[i]) && (Waits(s.threads[i]) ==> s.writelock.value > 0)
    ensures CanStep(s)
  {
    hide RW.Inv, Z.Inv, Z.NextStep, RW.Steps;
    ZemSteps(s.writelock, i, Waits(s.threads[i]));
    var z, lock' :| Z.NextStep(s.writelock, lock', z) && ZemAllowed(z, i, Waits(s.threads[i]));
    ZemMover(s.writelock, lock', z);
    var t := s.(writelock := lock');
    if Returns(z) {
      ReturnValue(s.writelock, lock', z);
      RW.FreeToStep(Abs(s), z.i);
      var a :| RW.Steps(Abs(s), a, z.i);
      WritelockReturn(Abs(s), a, z.i, lock'.value);
      t := State(a.readers, a.threads, a.left, s.lock, lock');
      assert Abs(t) == a;
    }
    assert NextStep(s, t, OnWritelock(z)) && Real(OnWritelock(z));
  }

  lemma ZemMover(z: Z.State, z': Z.State, step: Z.Step)
    requires Z.NextStep(z, z', step)
    ensures step.i < |z.threads| && (Returns(step) ==> z.threads[step.i] != Z.Idle)
    ensures step.Down? ==> z.threads[step.i] in WAITING && z.value > 0
    ensures step.Up? ==> z.threads[step.i] !in WAITING
  {
  }

  lemma ReturnValue(z: Z.State, z': Z.State, step: Z.Step)
    requires Z.NextStep(z, z', step) && Returns(step)
    ensures z'.value == if step.Down? then z.value - 1 else z.value + 1
  {
  }

  lemma LockReturn(s: RW.State, t: RW.State, i: nat, value: int)
    requires RW.Steps(s, t, i) && UsesLock(s.threads[i])
    requires value == if Waits(s.threads[i]) then s.lock - 1 else s.lock + 1
    ensures t.lock == value && t.writelock == s.writelock
  {
  }

  lemma WritelockReturn(s: RW.State, t: RW.State, i: nat, value: int)
    requires RW.Steps(s, t, i) && UsesWritelock(s.threads[i])
    requires value == if Waits(s.threads[i]) then s.writelock - 1 else s.writelock + 1
    ensures t.writelock == value && t.lock == s.lock
  {
  }

  /** Some thread can step in every reachable state until all threads are finished. */
  lemma DeadlockFree(run: seq<State>, n: nat, u: nat)
    requires Run(run) && n < |run| && u < |run[n].threads| && run[n].threads[u] != RW.Finished
    ensures CanStep(run[n])
  {
    hide RW.Inv, Z.Inv, Placed, CanStep, NextStep;
    var s := run[n];
    RunInv(run, n);
    RW.SomeStep(Abs(s), u);
    var i: nat :| RW.CanStep(Abs(s), i);
    var a :| RW.Steps(Abs(s), a, i);
    if UsesLock(s.threads[i]) {
      LockSteps(s, i);
    } else if UsesWritelock(s.threads[i]) {
      WritelockSteps(s, i);
    } else {
      LocalSteps(s, a, i);
    }
  }

  lemma LocalSteps(s: State, a: RW.State, i: nat)
    requires RW.Steps(Abs(s), a, i) && !UsesLock(s.threads[i]) && !UsesWritelock(s.threads[i])
    ensures CanStep(s)
  {
    var t := State(a.readers, a.threads, a.left, s.lock, s.writelock);
    assert Abs(t) == a;
    assert NextStep(s, t, Local(i)) && Real(Local(i));
  }

  // ---- every run ends, but for spurious wakeups ----

  /** More than the real steps that are left. */
  function Work(s: State): nat {
    5 * RW.LeftIn(Abs(s)) + Z.Stages(s.lock.threads) + Z.Stages(s.writelock.threads)
  }

  /** A real step does some of the work, and a spurious wakeup adds two. */
  lemma StepWorks(s: State, t: State, step: Step)
    requires NextStep(s, t, step)
    ensures Work(t) <= Work(s) + if Real(step) then -1 else 2
  {
    hide RW.Steps, Z.NextStep, Z.Stages, RW.Work;
    match step
    case Local(i) => RwWorks(Abs(s), Abs(t), i);
    case OnLock(z) =>
      Z.StepStages(s.lock, t.lock, z);
      if Returns(z) { RwWorks(Abs(s), Abs(t), z.i); }
    case OnWritelock(z) =>
      Z.StepStages(s.writelock, t.writelock, z);
      if Returns(z) { RwWorks(Abs(s), Abs(t), z.i); }
  }

  lemma RwWorks(s: RW.State, t: RW.State, i: nat)
    requires RW.Steps(s, t, i)
    ensures RW.LeftIn(t) < RW.LeftIn(s)
  {
    RW.StepWorks(s, t, i);
  }

  ghost predicate Taken(run: seq<State>, steps: seq<Step>) {
    Run(run) && |run| == |steps| + 1 && forall k | 0 <= k < |steps| :: NextStep(run[k], run[k + 1], steps[k])
  }

  function Reals(steps: seq<Step>): nat {
    if steps == [] then 0 else Reals(steps[..|steps| - 1]) + if Real(steps[|steps| - 1]) then 1 else 0
  }

  /** The real steps of a run are bounded by the rounds that the threads have to go and the spurious wakeups. */
  lemma RunEnds(run: seq<State>, steps: seq<Step>)
    requires Taken(run, steps)
    ensures Reals(steps) <= 5 * RW.LeftIn(Abs(run[0])) + 10 * |run[0].threads| + 2 * (|steps| - Reals(steps))
  {
    hide NextStep, RW.Work, Z.Stages, RW.Init;
    WorkDone(run, steps, |steps|);
    assert steps[..|steps|] == steps;
    Z.IdleStages(run[0].lock.threads);
    Z.IdleStages(run[0].writelock.threads);
  }

  lemma {:induction false} WorkDone(run: seq<State>, steps: seq<Step>, n: nat)
    requires Taken(run, steps) && n <= |steps|
    ensures Reals(steps[..n]) + Work(run[n]) <= Work(run[0]) + 2 * (n - Reals(steps[..n]))
  {
    hide NextStep, Work;
    if n > 0 {
      WorkDone(run, steps, n - 1);
      assert steps[..n][..n - 1] == steps[..n - 1] && steps[..n][n - 1] == steps[n - 1];
      assert NextStep(run[n - 1], run[n - 1 + 1], steps[n - 1]);
      StepWorks(run[n - 1], run[n], steps[n - 1]);
    }
  }

  lemma Extended(run: seq<State>, t: State, step: Step)
    requires Run(run) && NextStep(run[|run| - 1], t, step)
    ensures Run(run + [t])
  {
    hide Init, NextStep;
    var run' := run + [t];
    forall k | 0 <= k < |run'| - 1 ensures Next(run'[k], run'[k + 1]) {
      if k < |run| - 1 { assert Next(run[k], run[k + 1]); }
    }
  }

  ghost predicate AllFinished(s: State) { forall i | 0 <= i < |s.threads| :: s.threads[i] == RW.Finished }

  /** Every run goes on to a state in which all threads are finished. */
  lemma {:induction false} Completes(run: seq<State>) returns (all: seq<State>)
    requires Run(run)
    ensures Run(all) && run <= all && AllFinished(all[|all| - 1])
    decreases Work(run[|run| - 1])
  {
    hide NextStep, Work, Init, Next;
    var s := run[|run| - 1];
    all := run;
    if !AllFinished(s) {
      var u :| 0 <= u < |s.threads| && s.threads[u] != RW.Finished;
      DeadlockFree(run, |run| - 1, u);
      var step, t :| Real(step) && NextStep(s, t, step);
      StepWorks(s, t, step);
      Extended(run, t, step);
      all := Completes(run + [t]);
      C.Prefix(run, t, all);
    }
  }

  /** There is a first state for any readers and writers with any number of rounds. */
  lemma Starts(threads: seq<RW.Pc>, left: seq<nat>)
    requires |left| == |threads|
    requires forall i | 0 <= i < |threads| ::
               threads[i] in {RW.REnter, RW.WEnter, RW.Finished} && (threads[i] == RW.Finished <==> left[i] == 0)
    ensures var z := Z.State(1, false, seq(|threads|, _ => Z.Idle), 0, 0);
            Run([State(0, threads, left, z, z)])
  {
  }
}
