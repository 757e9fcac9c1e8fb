/**
 * threads-sema/zemaphore.h: a semaphore from a mutex and a condition variable, used by any number of
 * threads that call Zem_wait and Zem_post in any order, with spurious wakeups.
 */
module Zemaphore {
  import opened Counting

  /**
   * Between calls; in Zem_wait: before the lock, holding it at the test, waiting, woken; in Zem_post:
   * before the lock, holding it.
   */
  datatype Pc = Idle | WaitLock | WaitTest | Asleep | Woken | PostLock | PostHeld

  /** value and the mutex are z's; downs and ups count completed Zem_wait and Zem_post calls. */
  datatype State = State(value: int, held: bool, threads: seq<Pc>, downs: nat, ups: nat)

  datatype Step =
    | CallWait(i: nat) | LockWait(i: nat) | Sleep(i: nat) | Down(i: nat)
    | CallPost(i: nat) | LockPost(i: nat) | Up(i: nat, wake: nat)
    | Spurious(i: nat)

  ghost predicate Init(v: int, s: State) {
    s.value == v && !s.held && s.downs == s.ups == 0 && forall i | 0 <= i < |s.threads| :: s.threads[i] == Idle
  }

  function Move(s: State, i: nat, pc: Pc): State
    requires i < |s.threads|
  {
    s.(threads := s.threads[i := pc])
  }

  /** Cond_signal: one waiting thread is woken if there is one. */
  ghost predicate Signalled(ts: seq<Pc>, ts': seq<Pc>, w: nat) {
    if Asleep in ts then w < |ts| && ts[w] == Asleep && ts' == ts[w := Woken] else ts' == ts
  }

  ghost predicate NextStep(s: State, t: State, step: Step) {
    step.i < |s.threads| && |t.threads| == |s.threads| &&
    var pc := s.threads[step.i];
    match step
    case CallWait(i) => pc == Idle && t == Move(s, i, WaitLock)
    case LockWait(i) => pc in {WaitLock, Woken} && !s.held && t == Move(s, i, WaitTest).(held := true)
    case Sleep(i) => pc == WaitTest && s.value <= 0 && t == Move(s, i, Asleep).(held := false)
    case Down(i) =>
      && pc == WaitTest && s.value > 0
      && t == Move(s, i, Idle).(held := false, value := s.value - 1, downs := s.downs + 1)
    case CallPost(i) => pc == Idle && t == Move(s, i, PostLock)
    case LockPost(i) => pc == PostLock && !s.held && t == Move(s, i, PostHeld).(held := true)
    case Up(i, w) =>
      && pc == PostHeld
      && Signalled(s.threads[i := Idle], t.threads, w)
      && t == s.(threads := t.threads, held := false, value := s.value + 1, ups := s.ups + 1)
    case Spurious(i) => pc == Asleep && t == Move(s, i, Woken)
  }

  ghost predicate Next(s: State, t: State) { exists step :: NextStep(s, t, step) }

  ghost predicate Run(v: int, run: seq<State>) {
    |run| > 0 && Init(v, run[0]) && forall i | 0 <= i < |run| - 1 :: Next(run[i], run[i + 1])
  }

  // ---- the atomic semaphore ----

  /** What an atomic semaphore may do: wait while positive, post, or nothing visible. */
  ghost predicate AtomicStep(count: int, downs: nat, ups: nat, count': int, downs': nat, ups': nat) {
    || (count' == count && downs' == downs && ups' == ups)
    || (count > 0 && count' == count - 1 && downs' == downs + 1 && ups' == ups)
    || (count' == count + 1 && downs' == downs && ups' == ups + 1)
  }

  // ---- the invariant ----

  const HOLDERS := {WaitTest, PostHeld}
  const AWAKE := {Woken, WaitTest}

  ghost predicate Inv(v: int, s: State) {
    && Count(s.threads, HOLDERS) == (if s.held then 1 else 0)
    && s.value == v + s.ups - s.downs
    && (v >= 0 ==> s.value >= 0)
    && (Asleep in s.threads ==> Count(s.threads, AWAKE) >= s.value)
  }

  lemma Moved(ts: seq<Pc>, i: nat, pc: Pc)
    requires i < |ts|
    ensures Count(ts[i := pc], HOLDERS)
            == Count(ts, HOLDERS) - (if ts[i] in HOLDERS then 1 else 0) + (if pc in HOLDERS then 1 else 0)
    ensures Count(ts[i := pc], AWAKE)
            == Count(ts, AWAKE) - (if ts[i] in AWAKE then 1 else 0) + (if pc in AWAKE then 1 else 0)
    ensures pc != Asleep && Asleep in ts[i := pc] ==> Asleep in ts
  {
    CountUpdate(ts, HOLDERS, i, pc);
    CountUpdate(ts, AWAKE, i, pc);
  }

  lemma NextInv(v: int, s: State, t: State, step: Step)
    requires Inv(v, s) && NextStep(s, t, step)
    ensures Inv(v, t)
    ensures AtomicStep(s.value, s.downs, s.ups, t.value, t.downs, t.ups)
  {
    hide Count;
    match step {
      case CallWait(i) => Moved(s.threads, i, WaitLock);
      case LockWait(i) => Moved(s.threads, i, WaitTest);
      case Sleep(i) => Moved(s.threads, i, Asleep);
      case Down(i) => Moved(s.threads, i, Idle);
      case CallPost(i) => Moved(s.threads, i, PostLock);
      case LockPost(i) => Moved(s.threads, i, PostHeld);
      case Up(i, w) =>
        Moved(s.threads, i, Idle);
        if Asleep in s.threads[i := Idle] { Moved(s.threads[i := Idle], w, Woken); }
      case Spurious(i) => Moved(s.threads, i, Woken);
    }
  }

  lemma {:induction false} RunInv(v: int, run: seq<State>, n: nat)
    requires Run(v, run) && n < |run|
    ensures Inv(v, run[n])
  {
    hide Inv, NextStep;
    if n == 0 {
      InitInv(v, run[0]);
    } else {
      RunInv(v, run, n - 1);
      assert Next(run[n - 1], run[n - 1 + 1]);
      var step :| NextStep(run[n - 1], run[n], step);
      NextInv(v, run[n - 1], run[n], step);
    }
  }

  lemma InitInv(v: int, s: State)
    requires Init(v, s)
    ensures Inv(v, s)
  {
    CountZero(s.threads, HOLDERS);
  }

  // ---- main results ----

  /** Every step of every run is a step of the atomic semaphore, and value is its count. */
  lemma RefinesSemaphore(v: int, run: seq<State>, n: nat)
    requires Run(v, run) && n + 1 < |run|
    ensures AtomicStep(run[n].value, run[n].downs, run[n].ups, run[n + 1].value, run[n + 1].downs, run[n + 1].ups)
    ensures run[n].value == v + run[n].ups - run[n].downs && (v >= 0 ==> run[n].value >= 0)
  {
    RunInv(v, run, n);
    assert Next(run[n], run[n + 1]);
    var step :| NextStep(run[n], run[n + 1], step);
    NextInv(v, run[n], run[n + 1], step);
  }

  /** No lost wakeup: with a thread asleep, at least value threads are awake to take what is there. */
  lemma NoLostWakeup(v: int, run: seq<State>, n: nat)
    requires Run(v, run) && n < |run| && Asleep in run[n].threads
    ensures Count(run[n].threads, AWAKE) >= run[n].value
  {
    RunInv(v, run, n);
  }

  predicate Real(step: Step) { !step.Spurious? && !step.CallWait? && !step.CallPost? }

  lemma HolderSteps(s: State, i: nat)
    requires i < |s.threads| && s.threads[i] in HOLDERS
    ensures exists step, t :: Real(step) && NextStep(s, t, step)
  {
    if s.threads[i] == WaitTest {
      if s.value <= 0 {
        assert NextStep(s, Move(s, i, Asleep).(held := false), Sleep(i));
      } else {
        assert NextStep(s, Move(s, i, Idle).(held := false, value := s.value - 1, downs := s.downs + 1), Down(i));
      }
    } else {
      var ts := s.threads[i := Idle];
      var w: nat := if j: nat :| j < |ts| && ts[j] == Asleep then j else 0;
      var ts' := if Asleep in ts then ts[w := Woken] else ts;
      assert NextStep(s, s.(threads := ts', held := false, value := s.value + 1, ups := s.ups + 1), Up(i, w));
    }
  }

  /** Progress: while value is positive and some thread is in Zem_wait, some thread inside a call can step. */
  lemma Progress(v: int, run: seq<State>, n: nat, i: nat)
    requires Run(v, run) && n < |run| && run[n].value > 0 && i < |run[n].threads|
    requires run[n].threads[i] in {WaitLock, WaitTest, Asleep, Woken}
    ensures exists step, t :: Real(step) && NextStep(run[n], t, step)
  {
    RunInv(v, run, n);
    WaiterProgress(v, run[n], i);
  }

  lemma WaiterProgress(v: int, s: State, i: nat)
    requires Inv(v, s) && s.value > 0 && i < |s.threads| && s.threads[i] in {WaitLock, WaitTest, Asleep, Woken}
    ensures exists step, t :: Real(step) && NextStep(s, t, step)
  {
    hide Inv;
    if s.held {
      HeldBySomeone(v, s);
      var j: nat :| j < |s.threads| && s.threads[j] in HOLDERS;
      HolderSteps(s, j);
    } else {
      var j := i;
      if s.threads[i] == Asleep {
        AwakeThread(v, s);
        j :| 0 <= j < |s.threads| && s.threads[j] in AWAKE;
      }
      if s.threads[j] in HOLDERS {
        HolderSteps(s, j);
      } else {
        assert NextStep(s, Move(s, j, WaitTest).(held := true), LockWait(j));
      }
    }
  }

  lemma HeldBySomeone(v: int, s: State)
    requires Inv(v, s) && s.held
    ensures exists j: nat | j < |s.threads| :: s.threads[j] in HOLDERS
  {
    CountSome(s.threads, HOLDERS);
    var j :| 0 <= j < |s.threads| && s.threads[j] in HOLDERS;
  }

  lemma AwakeThread(v: int, s: State)
    requires Inv(v, s) && s.value > 0 && Asleep in s.threads
    ensures exists j | 0 <= j < |s.threads| :: s.threads[j] in AWAKE
  {
    CountSome(s.threads, AWAKE);
  }

  // ---- how much a call can do ----

  /** The steps that a thread can take before some call returns. */
  function Stage(pc: Pc): nat {
    match pc
    case Asleep => 2 case WaitTest => 3 case PostHeld => 3
    case WaitLock => 4 case Woken => 4 case PostLock => 4 case Idle => 5
  }

  function Stages(ts: seq<Pc>): nat {
    if ts == [] then 0 else Stages(ts[..|ts| - 1]) + Stage(ts[|ts| - 1])
  }

  lemma {:induction false} StagesSet(ts: seq<Pc>, i: nat, pc: Pc)
    requires i < |ts|
    ensures Stages(ts[i := pc]) == Stages(ts) - Stage(ts[i]) + Stage(pc)
  {
    hide Stage;
    var n := |ts| - 1;
    if i == n {
      assert ts[i := pc][..n] == ts[..n];
    } else {
      StagesSet(ts[..n], i, pc);
      assert ts[i := pc][..n] == ts[..n][i := pc];
    }
  }

  lemma {:induction false} IdleStages(ts: seq<Pc>)
    requires forall i | 0 <= i < |ts| :: ts[i] == Idle
    ensures Stages(ts) == 5 * |ts|
  {
    if ts != [] { IdleStages(ts[..|ts| - 1]); }
  }

  /** Every step but the return of a call and a spurious wakeup uses up a stage. */
  lemma StepStages(s: State, t: State, step: Step)
    requires NextStep(s, t, step)
    ensures Stages(t.threads) <=
            Stages(s.threads) + if step.Up? then 4 else if step.Down? || step.Spurious? then 2 else -1
  {
    hide Stages;
    var i := step.i;
    if step.Up? {
      StagesSet(s.threads, i, Idle);
      var ts := s.threads[i := Idle];
      if Asleep in ts { StagesSet(ts, step.wake, Woken); }
    } else {
      StagesSet(s.threads, i, t.threads[i]);
      assert t.threads == s.threads[i := t.threads[i]];
    }
  }

  /** There is a first state for every count and any number of threads. */
  lemma Starts(v: int, n: nat)
    ensures Run(v, [State(v, false, seq(n, _ => Idle), 0, 0)])
  {
  }
}
