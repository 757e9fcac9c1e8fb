/**
 * threads-sema/rwlock.c: a readers-writer lock from two semaphores, for any number of reader and writer
 * threads that each go through any number of rounds.  Semaphore operations are atomic steps.
 */
module RwLock {
  import opened Counting

  /**
   * A reader: waiting for `lock` to enter; counting itself; waiting for `writelock` as the first one;
   * about to post `lock`; reading; waiting for `lock` to leave; uncounting itself; about to post
   * `writelock` as the last one; about to post `lock`.  A writer: waiting for `writelock`; writing.
   */
  datatype Pc =
    | REnter | RCount | RFirst | RUnlock | Reading | RLeave | RUncount | RLast | RUnlock2
    | WEnter | Writing
    | Finished

  /** The two semaphores' counts, `readers`, and each thread's place and remaining rounds. */
  datatype State = State(writelock: int, lock: int, readers: int, threads: seq<Pc>, left: seq<nat>)

  ghost predicate Init(s: State) {
    && s.writelock == 1 && s.lock == 1 && s.readers == 0 && |s.left| == |s.threads|
    && forall i | 0 <= i < |s.threads| ::
         s.threads[i] in {REnter, WEnter, Finished} && (s.threads[i] == Finished <==> s.left[i] == 0)
  }

  function Go(s: State, i: nat, pc: Pc): State
    requires i < |s.threads|
  {
    s.(threads := s.threads[i := pc])
  }

  /** The end of a round: start the next one or finish. */
  function Again(s: State, i: nat, start: Pc): State
    requires i < |s.threads| == |s.left| && s.left[i] > 0
  {
    s.(threads := s.threads[i := if s.left[i] == 1 then Finished else start], left := s.left[i := s.left[i] - 1])
  }

  /** Thread i's next step. */
  ghost predicate Steps(s: State, t: State, i: nat) {
    && i < |s.threads| == |s.left| && s.left[i] > 0
    && match s.threads[i]
       case REnter => s.lock > 0 && t == Go(s, i, RCount).(lock := s.lock - 1)
       case RCount =>
         t == Go(s, i, if s.readers + 1 == 1 then RFirst else RUnlock).(readers := s.readers + 1)
       case RFirst => s.writelock > 0 && t == Go(s, i, RUnlock).(writelock := s.writelock - 1)
       case RUnlock => t == Go(s, i, Reading).(lock := s.lock + 1)
       case Reading => t == Go(s, i, RLeave)
       case RLeave => s.lock > 0 && t == Go(s, i, RUncount).(lock := s.lock - 1)
       case RUncount =>
         t == Go(s, i, if s.readers - 1 == 0 then RLast else RUnlock2).(readers := s.readers - 1)
       case RLast => t == Go(s, i, RUnlock2).(writelock := s.writelock + 1)
       case RUnlock2 => t == Again(s, i, REnter).(lock := s.lock + 1)
       case WEnter => s.writelock > 0 && t == Go(s, i, Writing).(writelock := s.writelock - 1)
       case Writing => t == Again(s, i, WEnter).(writelock := s.writelock + 1)
       case Finished => false
  }

  ghost predicate Next(s: State, t: State) { exists i :: Steps(s, t, i) }

  ghost predicate Run(run: seq<State>) {
    |run| > 0 && Init(run[0]) && forall i | 0 <= i < |run| - 1 :: Next(run[i], run[i + 1])
  }

  // ---- the invariant ----

  /** Between Sem_wait(&lock) and Sem_post(&lock). */
  const LOCKED := {RCount, RFirst, RUnlock, RUncount, RLast, RUnlock2}
  /** Counted in `readers`. */
  const COUNTED := {RFirst, RUnlock, Reading, RLeave, RUncount}

  /** The readers together hold `writelock`: counted readers past RFirst, or the last one about to post it. */
  ghost function GroupHolds(s: State): int {
    if RLast in s.threads then 1 else if s.readers >= 1 && RFirst !in s.threads then 1 else 0
  }

  ghost predicate Inv(s: State) {
    && |s.left| == |s.threads|
    && (forall i | 0 <= i < |s.threads| :: s.threads[i] == Finished <==> s.left[i] == 0)
    && s.lock >= 0 && s.writelock >= 0
    && s.lock + Count(s.threads, LOCKED) == 1
    && s.readers == Count(s.threads, COUNTED)
    && (RFirst in s.threads ==> s.readers == 1)
    && (RLast in s.threads ==> s.readers == 0)
    && s.writelock + Count(s.threads, {Writing}) + GroupHolds(s) == 1
  }

  lemma InitInv(s: State)
    requires Init(s)
    ensures Inv(s)
  {
    CountZero(s.threads, LOCKED);
    CountZero(s.threads, COUNTED);
    CountZero(s.threads, {Writing});
  }

  lemma Moved(ts: seq<Pc>, i: nat, pc: Pc)
    requires i < |ts|
    ensures Count(ts[i := pc], LOCKED)
            == Count(ts, LOCKED) - (if ts[i] in LOCKED then 1 else 0) + (if pc in LOCKED then 1 else 0)
    ensures Count(ts[i := pc], COUNTED)
            == Count(ts, COUNTED) - (if ts[i] in COUNTED then 1 else 0) + (if pc in COUNTED then 1 else 0)
    ensures Count(ts[i := pc], {Writing})
            == Count(ts, {Writing}) - (if ts[i] == Writing then 1 else 0) + (if pc == Writing then 1 else 0)
  {
    CountUpdate(ts, LOCKED, i, pc);
    CountUpdate(ts, COUNTED, i, pc);
    CountUpdate(ts, {Writing}, i, pc);
  }

  /** A place that at most one thread can be at, because it is inside `lock`. */
  lemma OnlyOne(s: State, i: nat, pc: Pc)
    requires Inv(s) && i < |s.threads| && s.threads[i] in LOCKED && pc in LOCKED && pc != s.threads[i]
    ensures pc !in s.threads
  {
    if pc in s.threads {
      var j :| 0 <= j < |s.threads| && s.threads[j] == pc;
      if i < j { CountTwo(s.threads, LOCKED, i, j); } else { CountTwo(s.threads, LOCKED, j, i); }
    }
  }

  /** Where RFirst and RLast are after one thread moved. */
  lemma Places(ts: seq<Pc>, i: nat, pc: Pc, x: Pc)
    requires i < |ts|
    ensures pc == x ==> x in ts[i := pc]
    ensures pc != x && ts[i] != x ==> (x in ts[i := pc] <==> x in ts)
  {
    if x in ts {
      var j :| 0 <= j < |ts| && ts[j] == x;
      assert j != i ==> ts[i := pc][j] == x;
    }
    if pc == x { assert ts[i := pc][i] == x; }
  }

  lemma Left(s: State, i: nat, pc: Pc)
    requires Inv(s) && i < |s.threads| && s.threads[i] in {RFirst, RLast} && pc !in {RFirst, RLast}
    ensures s.threads[i] !in s.threads[i := pc]
  {
    var x := s.threads[i];
    if x in s.threads[i := pc] {
      var j :| 0 <= j < |s.threads| && s.threads[i := pc][j] == x;
      if i < j { CountTwo(s.threads, LOCKED, i, j); } else { CountTwo(s.threads, LOCKED, j, i); }
    }
  }

  lemma StepInv(s: State, t: State, i: nat)
    requires Inv(s) && Steps(s, t, i)
    ensures Inv(t)
  {
    hide Inv;
    if s.threads[i] in {RCount, RFirst, RUnlock} {
      AcquiringStepInv(s, t, i);
    } else if s.threads[i] in LOCKED {
      ReleasingStepInv(s, t, i);
    } else {
      UnlockedStepInv(s, t, i);
    }
  }

  lemma AcquiringStepInv(s: State, t: State, i: nat)
    requires Inv(s) && Steps(s, t, i) && s.threads[i] in {RCount, RFirst, RUnlock}
    ensures Inv(t)
  {
    hide Count;
    var pc := t.threads[i];
    var x := s.threads[i];
    Moved(s.threads, i, pc);
    Places(s.threads, i, pc, RFirst);
    Places(s.threads, i, pc, RLast);
    if x == RFirst { Left(s, i, pc); } else { OnlyOne(s, i, RFirst); }
    OnlyOne(s, i, RLast);
    if x != RCount { CountOne(s.threads, COUNTED, i); }
  }

  lemma ReleasingStepInv(s: State, t: State, i: nat)
    requires Inv(s) && Steps(s, t, i) && s.threads[i] in {RUncount, RLast, RUnlock2}
    ensures Inv(t)
  {
    hide Count;
    var pc := t.threads[i];
    var x := s.threads[i];
    Moved(s.threads, i, pc);
    Places(s.threads, i, pc, RFirst);
    Places(s.threads, i, pc, RLast);
    if x == RLast { Left(s, i, pc); } else { OnlyOne(s, i, RLast); }
    OnlyOne(s, i, RFirst);
    if x == RUncount { CountOne(s.threads, COUNTED, i); }
  }

  lemma UnlockedStepInv(s: State, t: State, i: nat)
    requires Inv(s) && Steps(s, t, i) && s.threads[i] !in LOCKED
    ensures Inv(t)
  {
    hide Count;
    var pc := t.threads[i];
    Moved(s.threads, i, pc);
    Places(s.threads, i, pc, RFirst);
    Places(s.threads, i, pc, RLast);
  }

  lemma {:induction false} RunInv(run: seq<State>, n: nat)
    requires Run(run) && n < |run|
    ensures Inv(run[n])
  {
    hide Inv, Steps;
    if n == 0 {
      InitInv(run[0]);
    } else {
      RunInv(run, n - 1);
      assert Next(run[n - 1], run[n - 1 + 1]);
      var i :| Steps(run[n - 1], run[n], i);
      StepInv(run[n - 1], run[n], i);
    }
  }

  // ---- main results ----

  /** A writer is never inside with a reader or with a second writer. */
  lemma Exclusion(run: seq<State>, n: nat, i: nat, j: nat)
    requires Run(run) && n < |run| && i < |run[n].threads| && j < |run[n].threads| && i != j
    requires run[n].threads[i] == Writing
    ensures run[n].threads[j] !in {Reading, Writing}
  {
    RunInv(run, n);
    WriterAlone(run[n], i, j);
  }

  lemma WriterAlone(s: State, i: nat, j: nat)
    requires Inv(s) && i < |s.threads| && j < |s.threads| && i != j && s.threads[i] == Writing
    ensures s.threads[j] !in {Reading, Writing}
  {
    CountOne(s.threads, {Writing}, i);
    if s.threads[j] == Writing {
      if i < j { CountTwo(s.threads, {Writing}, i, j); } else { CountTwo(s.threads, {Writing}, j, i); }
    } else if s.threads[j] == Reading {
      CountOne(s.threads, COUNTED, j);
      if RFirst in s.threads {
        var k :| 0 <= k < |s.threads| && s.threads[k] == RFirst;
        if k < j { CountTwo(s.threads, COUNTED, k, j); } else { CountTwo(s.threads, COUNTED, j, k); }
      }
    }
  }

  /** While readers are inside, writers are kept out without any of them holding `writelock` alone. */
  lemma ReadersShare(run: seq<State>, n: nat)
    requires Run(run) && n < |run| && Reading in run[n].threads
    ensures run[n].writelock == 0 && Writing !in run[n].threads && run[n].readers >= 1
  {
    RunInv(run, n);
    var s := run[n];
    var j :| 0 <= j < |s.threads| && s.threads[j] == Reading;
    CountOne(s.threads, COUNTED, j);
    if Writing in s.threads {
      var i :| 0 <= i < |s.threads| && s.threads[i] == Writing;
      Exclusion(run, n, i, j);
    } else {
      CountZero(s.threads, {Writing});
      if RFirst in s.threads {
        var k :| 0 <= k < |s.threads| && s.threads[k] == RFirst;
        if k < j { CountTwo(s.threads, COUNTED, k, j); } else { CountTwo(s.threads, COUNTED, j, k); }
      }
    }
  }

  ghost predicate CanStep(s: State, i: nat) { exists t :: Steps(s, t, i) }

  /** A thread that is not waiting for a semaphore can step. */
  lemma FreeToStep(s: State, i: nat)
    requires Inv(s) && i < |s.threads|
    requires s.threads[i] in {RCount, RUnlock, Reading, RUncount, RLast, RUnlock2, Writing}
             || (s.threads[i] in {REnter, RLeave} && s.lock > 0)
             || (s.threads[i] in {RFirst, WEnter} && s.writelock > 0)
    ensures CanStep(s, i)
  {
    var t := match s.threads[i]
      case REnter => Go(s, i, RCount).(lock := s.lock - 1)
      case RCount => Go(s, i, if s.readers + 1 == 1 then RFirst else RUnlock).(readers := s.readers + 1)
      case RFirst => Go(s, i, RUnlock).(writelock := s.writelock - 1)
      case RUnlock => Go(s, i, Reading).(lock := s.lock + 1)
      case Reading => Go(s, i, RLeave)
      case RLeave => Go(s, i, RUncount).(lock := s.lock - 1)
      case RUncount => Go(s, i, if s.readers - 1 == 0 then RLast else RUnlock2).(readers := s.readers - 1)
      case RLast => Go(s, i, RUnlock2).(writelock := s.writelock + 1)
      case RUnlock2 => Again(s, i, REnter).(lock := s.lock + 1)
      case WEnter => Go(s, i, Writing).(writelock := s.writelock - 1)
      case Writing => Again(s, i, WEnter).(writelock := s.writelock + 1)
      case Finished => s;
    assert Steps(s, t, i);
  }

  /** Some thread can step in every reachable state until all threads are finished. */
  lemma DeadlockFree(run: seq<State>, n: nat, u: nat)
    requires Run(run) && n < |run| && u < |run[n].threads| && run[n].threads[u] != Finished
    ensures exists i :: CanStep(run[n], i)
  {
    RunInv(run, n);
    SomeStep(run[n], u);
  }

  lemma SomeStep(s: State, u: nat)
    requires Inv(s) && u < |s.threads| && s.threads[u] != Finished
    ensures exists i :: CanStep(s, i)
  {
    if s.lock == 0 {
      LockHolderOrWriter(s);
    } else if s.writelock == 0 && s.threads[u] in {WEnter, RFirst} {
      WritelockHolder(s);
    } else {
      FreeToStep(s, u);
    }
  }

  /** `lock` is taken: its holder can step, or it waits for a writer that can. */
  lemma LockHolderOrWriter(s: State)
    requires Inv(s) && s.lock == 0
    ensures exists i :: CanStep(s, i)
  {
    CountSome(s.threads, LOCKED);
    var i :| 0 <= i < |s.threads| && s.threads[i] in LOCKED;
    if s.threads[i] == RFirst && s.writelock == 0 {
      OnlyOne(s, i, RLast);
      CountSome(s.threads, {Writing});
      var j :| 0 <= j < |s.threads| && s.threads[j] in {Writing};
      FreeToStep(s, j);
    } else {
      FreeToStep(s, i);
    }
  }

  /** `writelock` is taken and `lock` is free: a writer, or a reader that can leave, can step. */
  lemma WritelockHolder(s: State)
    requires Inv(s) && s.lock == 1 && s.writelock == 0
    ensures exists i :: CanStep(s, i)
  {
    if Count(s.threads, {Writing}) > 0 {
      CountSome(s.threads, {Writing});
      var j :| 0 <= j < |s.threads| && s.threads[j] in {Writing};
      FreeToStep(s, j);
    } else {
      if x :| x in {RLast, RFirst} && x in s.threads {
        var k :| 0 <= k < |s.threads| && s.threads[k] == x;
        CountOne(s.threads, LOCKED, k);
      }
      CountSome(s.threads, COUNTED);
      var j :| 0 <= j < |s.threads| && s.threads[j] in COUNTED;
      if s.threads[j] in LOCKED { CountOne(s.threads, LOCKED, j); }
      FreeToStep(s, j);
    }
  }

  // ---- every run ends ----

  /** The steps to the end of a round, at most. */
  function ToGo(pc: Pc): nat {
    match pc
    case REnter => 9 case RCount => 8 case RFirst => 7 case RUnlock => 6 case Reading => 5
    case RLeave => 4 case RUncount => 3 case RLast => 2 case RUnlock2 => 1
    case WEnter => 2 case Writing => 1
    case Finished => 0
  }

  /** More than the steps that all threads together have left. */
  function Work(ts: seq<Pc>, left: seq<nat>): nat
    requires |ts| == |left|
  {
    if ts == [] then 0
    else Work(ts[..|ts| - 1], left[..|ts| - 1]) + 10 * left[|ts| - 1] + ToGo(ts[|ts| - 1])
  }

  lemma {:induction false} WorkSet(ts: seq<Pc>, left: seq<nat>, i: nat, pc: Pc, l: nat)
    requires i < |ts| == |left|
    ensures Work(ts[i := pc], left[i := l]) == Work(ts, left) - 10 * left[i] - ToGo(ts[i]) + 10 * l + ToGo(pc)
  {
    hide ToGo;
    var n := |ts| - 1;
    if i == n {
      assert ts[i := pc][..n] == ts[..n] && left[i := l][..n] == left[..n];
    } else {
      WorkSet(ts[..n], left[..n], i, pc, l);
      assert ts[i := pc][..n] == ts[..n][i := pc] && left[i := l][..n] == left[..n][i := l];
    }
  }

  lemma StepWorks(s: State, t: State, i: nat)
    requires Steps(s, t, i)
    ensures |t.threads| == |t.left| && Work(t.threads, t.left) < Work(s.threads, s.left)
  {
    hide Work;
    assert t.left == s.left[i := t.left[i]] && t.threads == s.threads[i := t.threads[i]];
    WorkSet(s.threads, s.left, i, t.threads[i], t.left[i]);
  }

  /** No run is longer than the work there is: n steps into a run, n of it are done. */
  lemma {:induction false} RunEnds(run: seq<State>, n: nat)
    requires Run(run) && n < |run|
    ensures |run[0].threads| == |run[0].left| && |run[n].threads| == |run[n].left|
    ensures n + Work(run[n].threads, run[n].left) <= Work(run[0].threads, run[0].left)
  {
    hide Steps, Work;
    if n > 0 {
      RunEnds(run, n - 1);
      assert Next(run[n - 1], run[n - 1 + 1]);
      var i :| Steps(run[n - 1], run[n], i);
      StepWorks(run[n - 1], run[n], i);
    }
  }

  function LeftIn(s: State): nat { if |s.threads| == |s.left| then Work(s.threads, s.left) else 0 }

  lemma Extended(run: seq<State>, t: State, i: nat)
    requires Run(run) && Steps(run[|run| - 1], t, i)
    ensures Run(run + [t])
  {
    hide Init, Steps;
    var run' := run + [t];
    forall k | 0 <= k < |run'| - 1 ensures Next(run'[k], run'[k + 1]) {
      if k < |run| - 1 { assert Next(run[k], run[k + 1]); }
    }
  }

  ghost predicate AllFinished(s: State) { forall i | 0 <= i < |s.threads| :: s.threads[i] == Finished }

  /** Every run goes on to a state in which all threads are finished. */
  lemma {:induction false} Completes(run: seq<State>) returns (all: seq<State>)
    requires Run(run)
    ensures Run(all) && run <= all && AllFinished(all[|all| - 1])
    decreases LeftIn(run[|run| - 1])
  {
    hide Steps, Work, Init, Next;
    var s := run[|run| - 1];
    RunEnds(run, |run| - 1);
    all := run;
    if !AllFinished(s) {
      var u :| 0 <= u < |s.threads| && s.threads[u] != Finished;
      DeadlockFree(run, |run| - 1, u);
      var i :| CanStep(s, i);
      var t :| Steps(s, t, i);
      StepWorks(s, t, i);
      Extended(run, t, i);
      all := Completes(run + [t]);
      Prefix(run, t, all);
    }
  }

  // ---- readers do not keep each other out ----

  /** i of n readers are reading, and the others have not come yet. */
  ghost function Together(n: nat, i: nat): State
    requires i <= n
  {
    State(if i == 0 then 1 else 0, 1, i, seq(n, k => if k < i then Reading else REnter), seq(n, _ => 1))
  }

  /** Any number of readers can be inside at once. */
  lemma {:induction false} ReadersTogether(n: nat, i: nat) returns (run: seq<State>)
    requires i <= n
    ensures Run(run) && run[|run| - 1] == Together(n, i)
    decreases i
  {
    if i == 0 {
      run := [Together(n, 0)];
    } else {
      run := ReadersTogether(n, i - 1);
      run := OneMoreReader(run, n, i - 1);
    }
  }

  lemma OneMoreReader(run: seq<State>, n: nat, i: nat) returns (more: seq<State>)
    requires i < n && Run(run) && run[|run| - 1] == Together(n, i)
    ensures Run(more) && more[|more| - 1] == Together(n, i + 1)
  {
    hide Run, Steps;
    var a := Together(n, i);
    var b := Go(a, i, RCount).(lock := 0);
    assert Steps(a, b, i) by { Entered(a, i); }
    Extended(run, b, i);
    more := run + [b];
    var c := Go(b, i, if i == 0 then RFirst else RUnlock).(readers := i + 1);
    assert Steps(b, c, i) by { Counted(b, i); }
    Extended(more, c, i);
    more := more + [c];
    var d := c;
    if i == 0 {
      d := Go(c, i, RUnlock).(writelock := 0);
      assert Steps(c, d, i) by { GotWritelock(c, i); }
      Extended(more, d, i);
      more := more + [d];
    }
    var e := Go(d, i, Reading).(lock := 1);
    assert Steps(d, e, i) by { Unlocked(d, i); }
    Extended(more, e, i);
    more := more + [e];
    assert e.threads == Together(n, i + 1).threads;
  }

  lemma Entered(s: State, i: nat)
    requires i < |s.threads| == |s.left| && s.left[i] > 0 && s.threads[i] == REnter && s.lock == 1
    ensures Steps(s, Go(s, i, RCount).(lock := 0), i)
  {
  }

  lemma Counted(s: State, i: nat)
    requires i < |s.threads| == |s.left| && s.left[i] > 0 && s.threads[i] == RCount
    ensures Steps(s, Go(s, i, if s.readers == 0 then RFirst else RUnlock).(readers := s.readers + 1), i)
  {
  }

  lemma GotWritelock(s: State, i: nat)
    requires i < |s.threads| == |s.left| && s.left[i] > 0 && s.threads[i] == RFirst && s.writelock == 1
    ensures Steps(s, Go(s, i, RUnlock).(writelock := 0), i)
  {
  }

  lemma Unlocked(s: State, i: nat)
    requires i < |s.threads| == |s.left| && s.left[i] > 0 && s.threads[i] == RUnlock && s.lock == 0
    ensures Steps(s, Go(s, i, Reading).(lock := 1), i)
  {
  }
}
