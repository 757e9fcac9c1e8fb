/**
 * sleeplock.c over proc.c's sleep() and wakeup(): any number of processes contend for one sleep lock.
 * Every acquire or release of the lock's own spin lock and of ptable.lock is a step of its own.
 */
module SleepLock {
  import opened Counting

  /**
   * Out: not using the lock.  acquiresleep(): A0 before acquire(&lk->lk), A1 at the test of locked.
   * sleep(): S1 before acquire(&ptable.lock), S2 before release(lk), S3 before becoming SLEEPING,
   * Asleep, Runnable after a wakeup, S5 scheduled again, S6 before acquire(lk).  In: holds the sleep
   * lock.  releasesleep(): R0 before acquire(&lk->lk), R1 before clearing locked, R2 before wakeup()'s
   * acquire(&ptable.lock), R3 before its loop, R4 before release(&lk->lk).
   */
  datatype Pc = Out | A0 | A1 | S1 | S2 | S3 | Asleep | Runnable | S5 | S6 | In | R0 | R1 | R2 | R3 | R4

  /** lk->lk, ptable.lock, lk->locked, and every process. */
  datatype State = State(spin: bool, ptable: bool, locked: bool, procs: seq<Pc>)

  ghost predicate Init(s: State) {
    !s.spin && !s.ptable && !s.locked && forall i | 0 <= i < |s.procs| :: s.procs[i] == Out
  }

  function Go(s: State, i: nat, pc: Pc): State
    requires i < |s.procs|
  {
    s.(procs := s.procs[i := pc])
  }

  /** wakeup1(): every process asleep on the lock becomes runnable. */
  function WakeAll(ps: seq<Pc>): (r: seq<Pc>)
    ensures |r| == |ps|
    ensures forall i | 0 <= i < |ps| :: r[i] == if ps[i] == Asleep then Runnable else ps[i]
  {
    if ps == [] then []
    else WakeAll(ps[..|ps| - 1]) + [if ps[|ps| - 1] == Asleep then Runnable else ps[|ps| - 1]]
  }

  /** Process i's next step. */
  ghost predicate Steps(s: State, t: State, i: nat) {
    i < |s.procs| &&
    match s.procs[i]
    case Out => t == Go(s, i, A0)
    case A0 => !s.spin && t == Go(s, i, A1).(spin := true)
    case A1 => t == if s.locked then Go(s, i, S1) else Go(s, i, In).(locked := true, spin := false)
    case S1 => !s.ptable && t == Go(s, i, S2).(ptable := true)
    case S2 => t == Go(s, i, S3).(spin := false)
    case S3 => t == Go(s, i, Asleep).(ptable := false)
    case Asleep => false
    case Runnable => !s.ptable && t == Go(s, i, S5).(ptable := true)
    case S5 => t == Go(s, i, S6).(ptable := false)
    case S6 => !s.spin && t == Go(s, i, A1).(spin := true)
    case In => t == Go(s, i, R0)
    case R0 => !s.spin && t == Go(s, i, R1).(spin := true)
    case R1 => t == Go(s, i, R2).(locked := false)
    case R2 => !s.ptable && t == Go(s, i, R3).(ptable := true)
    case R3 => t == s.(procs := WakeAll(s.procs)[i := R4], ptable := false)
    case R4 => t == Go(s, i, Out).(spin := false)
  }

  /** kill() of a sleeping process, under ptable.lock. */
  ghost predicate Kills(s: State, t: State, i: nat) {
    i < |s.procs| && s.procs[i] == Asleep && !s.ptable && t == Go(s, i, Runnable)
  }

  ghost predicate Next(s: State, t: State) { exists i: nat | i < |s.procs| :: Steps(s, t, i) || Kills(s, t, i) }

  ghost predicate Run(run: seq<State>) {
    |run| > 0 && Init(run[0]) && forall i | 0 <= i < |run| - 1 :: Next(run[i], run[i + 1])
  }

  // ---- the invariant ----

  const SPIN := {A1, S1, S2, R1, R2, R3, R4}
  const PTABLE := {S2, S3, S5, R3}
  const HOLDER := {In, R0, R1}
  /** Decided to sleep and committed to it by holding ptable.lock, or asleep. */
  const SLEEPERS := {S3, Asleep}
  /** Has cleared locked and not yet run wakeup()'s loop. */
  const WAKERS := {R2, R3}

  ghost predicate Inv(s: State) {
    && Count(s.procs, SPIN) == (if s.spin then 1 else 0)
    && Count(s.procs, PTABLE) == (if s.ptable then 1 else 0)
    && Count(s.procs, HOLDER) == (if s.locked then 1 else 0)
    && (Count(s.procs, {S1, S2}) > 0 ==> s.locked)
    && (Count(s.procs, WAKERS) > 0 ==> !s.locked)
    && (Count(s.procs, SLEEPERS) > 0 ==> s.locked || Count(s.procs, WAKERS) > 0)
  }

  lemma InitInv(s: State)
    requires Init(s)
    ensures Inv(s)
  {
    CountZero(s.procs, SPIN);
    CountZero(s.procs, PTABLE);
    CountZero(s.procs, HOLDER);
    CountZero(s.procs, {S1, S2});
    CountZero(s.procs, WAKERS);
    CountZero(s.procs, SLEEPERS);
  }

  lemma Moved(ps: seq<Pc>, i: nat, pc: Pc, of: set<Pc>)
    requires i < |ps|
    ensures Count(ps[i := pc], of) == Count(ps, of) - (if ps[i] in of then 1 else 0) + (if pc in of then 1 else 0)
    ensures ps[i] in of ==> Count(ps, of) > 0
  {
    CountUpdate(ps, of, i, pc);
    if ps[i] in of { CountOne(ps, of, i); }
  }

  /** Waking changes no count but that of the sleepers and of the runnable. */
  lemma {:induction false} WakeCounts(ps: seq<Pc>, of: set<Pc>)
    requires Runnable !in of
    ensures Asleep !in of ==> Count(WakeAll(ps), of) == Count(ps, of)
    ensures Count(WakeAll(ps), of - {Asleep}) == Count(WakeAll(ps), of)
  {
    if ps != [] {
      WakeCounts(ps[..|ps| - 1], of);
      var w := WakeAll(ps);
      assert w[..|w| - 1] == WakeAll(ps[..|ps| - 1]);
    }
  }

  /** How many of a set's places a process is at. */
  function At(pc: Pc, of: set<Pc>): int { if pc in of then 1 else 0 }

  lemma StepMoves(ps: seq<Pc>, i: nat, pc: Pc)
    requires i < |ps|
    ensures Count(ps[i := pc], SPIN) == Count(ps, SPIN) - At(ps[i], SPIN) + At(pc, SPIN)
    ensures Count(ps[i := pc], PTABLE) == Count(ps, PTABLE) - At(ps[i], PTABLE) + At(pc, PTABLE)
    ensures Count(ps[i := pc], HOLDER) == Count(ps, HOLDER) - At(ps[i], HOLDER) + At(pc, HOLDER)
    ensures Count(ps[i := pc], {S1, S2}) == Count(ps, {S1, S2}) - At(ps[i], {S1, S2}) + At(pc, {S1, S2})
    ensures Count(ps[i := pc], WAKERS) == Count(ps, WAKERS) - At(ps[i], WAKERS) + At(pc, WAKERS)
    ensures Count(ps[i := pc], SLEEPERS) == Count(ps, SLEEPERS) - At(ps[i], SLEEPERS) + At(pc, SLEEPERS)
    ensures Count(ps, SPIN) >= At(ps[i], SPIN) && Count(ps, {S1, S2}) >= At(ps[i], {S1, S2})
    ensures Count(ps, WAKERS) >= At(ps[i], WAKERS) && Count(ps, SLEEPERS) >= At(ps[i], SLEEPERS)
  {
    hide Count;
    Moved(ps, i, pc, SPIN);
    Moved(ps, i, pc, PTABLE);
    Moved(ps, i, pc, HOLDER);
    Moved(ps, i, pc, {S1, S2});
    Moved(ps, i, pc, WAKERS);
    Moved(ps, i, pc, SLEEPERS);
  }

  /** The spin lock's holder is in one place only. */
  lemma SpinSplit(ps: seq<Pc>)
    ensures Count(ps, SPIN) == Count(ps, {S1, S2}) + Count(ps, WAKERS) + Count(ps, {A1, R1, R4})
  {
    assert {S1, S2} + WAKERS + {A1, R1, R4} == SPIN;
    CountUnion(ps, {S1, S2} + WAKERS, {A1, R1, R4});
    CountUnion(ps, {S1, S2}, WAKERS);
  }

  lemma AcquireInv(s: State, t: State, i: nat)
    requires Inv(s) && Steps(s, t, i) && s.procs[i] in {Out, A0, A1, S6}
    ensures Inv(t)
  {
    hide Count;
    StepMoves(s.procs, i, t.procs[i]);
    assert t.procs == s.procs[i := t.procs[i]];
    SpinSplit(s.procs);
    if s.procs[i] in {A1, R1, R4} { CountOne(s.procs, {A1, R1, R4}, i); }
  }

  lemma SleepInv(s: State, t: State, i: nat)
    requires Inv(s) && ((Steps(s, t, i) && s.procs[i] in {S1, S2, S3}) || Kills(s, t, i))
    ensures Inv(t)
  {
    hide Count;
    StepMoves(s.procs, i, t.procs[i]);
    assert t.procs == s.procs[i := t.procs[i]];
    SpinSplit(s.procs);
  }

  lemma WakenInv(s: State, t: State, i: nat)
    requires Inv(s) && Steps(s, t, i) && s.procs[i] in {Runnable, S5, In, R0}
    ensures Inv(t)
  {
    hide Count;
    StepMoves(s.procs, i, t.procs[i]);
    assert t.procs == s.procs[i := t.procs[i]];
    SpinSplit(s.procs);
  }

  lemma ReleaseInv(s: State, t: State, i: nat)
    requires Inv(s) && Steps(s, t, i) && s.procs[i] in {R1, R2, R4}
    ensures Inv(t)
  {
    hide Count;
    StepMoves(s.procs, i, t.procs[i]);
    assert t.procs == s.procs[i := t.procs[i]];
    SpinSplit(s.procs);
    if s.procs[i] in {A1, R1, R4} { CountOne(s.procs, {A1, R1, R4}, i); }
  }

  lemma MoveInv(s: State, t: State, i: nat)
    requires Inv(s) && (Steps(s, t, i) || Kills(s, t, i)) && i < |s.procs| && s.procs[i] != R3
    ensures Inv(t)
  {
    hide Inv;
    if s.procs[i] in {Out, A0, A1, S6} {
      AcquireInv(s, t, i);
    } else if s.procs[i] in {S1, S2, S3, Asleep} {
      SleepInv(s, t, i);
    } else if s.procs[i] in {Runnable, S5, In, R0} {
      WakenInv(s, t, i);
    } else {
      ReleaseInv(s, t, i);
    }
  }

  /** wakeup()'s loop and its release of ptable.lock. */
  lemma WakeInv(s: State, t: State, i: nat)
    requires Inv(s) && Steps(s, t, i) && s.procs[i] == R3
    ensures Inv(t)
  {
    hide Count;
    var w := WakeAll(s.procs);
    StepMoves(w, i, R4);
    WakeCounts(s.procs, SPIN);
    WakeCounts(s.procs, PTABLE);
    WakeCounts(s.procs, HOLDER);
    WakeCounts(s.procs, {S1, S2});
    WakeCounts(s.procs, WAKERS);
    WakeCounts(s.procs, SLEEPERS);
    WakeCounts(s.procs, {S3});
    assert SLEEPERS - {Asleep} == {S3};
    CountUnion(s.procs, {S3}, {S2, S5, R3});
    assert {S3} + {S2, S5, R3} == PTABLE;
    CountOne(s.procs, {S2, S5, R3}, i);
    SpinSplit(s.procs);
    CountOne(s.procs, WAKERS, i);
  }

  lemma {:induction false} RunInv(run: seq<State>, n: nat)
    requires Run(run) && n < |run|
    ensures Inv(run[n])
  {
    hide Inv, Steps;
    if n == 0 {
      InitInv(run[0]);
    } else {
      RunInv(run, n - 1);
      assert Next(run[n - 1], run[n - 1 + 1]);
      var i: nat :| i < |run[n - 1].procs| && (Steps(run[n - 1], run[n], i) || Kills(run[n - 1], run[n], i));
      if run[n - 1].procs[i] == R3 { WakeInv(run[n - 1], run[n], i); } else { MoveInv(run[n - 1], run[n], i); }
    }
  }

  // ---- main results ----

  /** The sleep lock has at most one holder, and exactly one when locked is set. */
  lemma OneHolder(run: seq<State>, n: nat, i: nat, j: nat)
    requires Run(run) && n < |run| && i < j < |run[n].procs|
    ensures !(run[n].procs[i] in HOLDER && run[n].procs[j] in HOLDER)
    ensures run[n].procs[i] in HOLDER || run[n].procs[j] in HOLDER ==> run[n].locked
  {
    RunInv(run, n);
    var ps := run[n].procs;
    if ps[i] in HOLDER && ps[j] in HOLDER { CountTwo(ps, HOLDER, i, j); }
    if ps[i] in HOLDER { CountOne(ps, HOLDER, i); }
    if ps[j] in HOLDER { CountOne(ps, HOLDER, j); }
  }

  /**
   * No lost wakeup.  With neither spin lock held, a process asleep on the sleep lock means that the lock
   * is held, by a process that has still to run releasesleep().
   */
  lemma SleepingMeansHeld(run: seq<State>, n: nat)
    requires Run(run) && n < |run| && Asleep in run[n].procs && !run[n].spin && !run[n].ptable
    ensures run[n].locked && exists i | 0 <= i < |run[n].procs| :: run[n].procs[i] in {In, R0}
  {
    RunInv(run, n);
    var ps := run[n].procs;
    var i :| 0 <= i < |ps| && ps[i] == Asleep;
    CountOne(ps, SLEEPERS, i);
    SpinSplit(ps);
    CountSome(ps, HOLDER);
    var j :| 0 <= j < |ps| && ps[j] in HOLDER;
    if ps[j] == R1 { CountOne(ps, SPIN, j); }
  }

  /** Even in the middle of a release: a sleeper whose lock is free is about to be woken. */
  lemma SleeperWillBeWoken(run: seq<State>, n: nat)
    requires Run(run) && n < |run| && Asleep in run[n].procs && !run[n].locked
    ensures exists i | 0 <= i < |run[n].procs| :: run[n].procs[i] in WAKERS
  {
    RunInv(run, n);
    var ps := run[n].procs;
    var i :| 0 <= i < |ps| && ps[i] == Asleep;
    CountOne(ps, SLEEPERS, i);
    CountSome(ps, WAKERS);
  }

  ghost predicate CanStep(s: State, i: nat) { exists t :: Steps(s, t, i) }

  lemma FreeToStep(s: State, i: nat)
    requires i < |s.procs| && s.procs[i] != Asleep
    requires s.procs[i] in {A0, S6, R0} ==> !s.spin
    requires s.procs[i] in {S1, Runnable, R2} ==> !s.ptable
    ensures CanStep(s, i)
  {
    var t := match s.procs[i]
      case Out => Go(s, i, A0)
      case A0 => Go(s, i, A1).(spin := true)
      case A1 => if s.locked then Go(s, i, S1) else Go(s, i, In).(locked := true, spin := false)
      case S1 => Go(s, i, S2).(ptable := true)
      case S2 => Go(s, i, S3).(spin := false)
      case S3 => Go(s, i, Asleep).(ptable := false)
      case Asleep => s
      case Runnable => Go(s, i, S5).(ptable := true)
      case S5 => Go(s, i, S6).(ptable := false)
      case S6 => Go(s, i, A1).(spin := true)
      case In => Go(s, i, R0)
      case R0 => Go(s, i, R1).(spin := true)
      case R1 => Go(s, i, R2).(locked := false)
      case R2 => Go(s, i, R3).(ptable := true)
      case R3 => s.(procs := WakeAll(s.procs)[i := R4], ptable := false)
      case R4 => Go(s, i, Out).(spin := false);
    assert Steps(s, t, i);
  }

  /** While some process is inside acquiresleep() or releasesleep(), a process inside them or the holder can step. */
  lemma DeadlockFree(run: seq<State>, n: nat, u: nat)
    requires Run(run) && n < |run| && u < |run[n].procs| && run[n].procs[u] != Out
    ensures exists i | 0 <= i < |run[n].procs| :: run[n].procs[i] != Out && CanStep(run[n], i)
  {
    RunInv(run, n);
    var s := run[n];
    if s.ptable {
      CountSome(s.procs, PTABLE);
      var i :| 0 <= i < |s.procs| && s.procs[i] in PTABLE;
      FreeToStep(s, i);
    } else if s.spin {
      CountSome(s.procs, SPIN);
      var i :| 0 <= i < |s.procs| && s.procs[i] in SPIN;
      FreeToStep(s, i);
    } else if s.procs[u] == Asleep {
      SleepingMeansHeld(run, n);
      var i :| 0 <= i < |s.procs| && s.procs[i] in {In, R0};
      FreeToStep(s, i);
    } else {
      FreeToStep(s, u);
    }
  }

  /** There is a first state for any number of processes. */
  lemma Starts(n: nat)
    ensures Run([State(false, false, false, seq(n, _ => Out))])
  {
  }
}
