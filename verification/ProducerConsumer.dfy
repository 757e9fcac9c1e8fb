/**
 * threads-cv/pc.c: one producer, any number of consumers, one mutex and two condition variables,
 * as a step system over all interleavings, with spurious wakeups as pthread_cond_wait of POSIX.1
 * permits.
 */
module ProducerConsumer {
  import opened Counting

  /**
   * Where a thread is: about to lock the mutex, holding it at its loop test, waiting on its condition
   * variable, woken but without the mutex yet, or finished.
   */
  datatype Pc = Ready | Holding | Asleep | Woken | Done

  /** max, loops, consumers */
  datatype Config = Config(max: nat, loops: nat, consumers: nat)

  /** Somebody takes what the producer makes, or the buffer holds it all. */
  ghost predicate ValidConfig(c: Config) { c.max >= 1 && (c.consumers >= 1 || c.loops <= c.max) }

  /**
   * buffer, fill_ptr, use_ptr and num_full are pc.c's; held says whether some thread has the mutex; made
   * counts the producer's calls of do_fill; outs lists what do_get returned, in order; got counts the
   * markers each consumer received.
   */
  datatype State = State(
    buffer: seq<int>, fillPtr: nat, usePtr: nat, numFull: nat, held: bool,
    made: nat, producer: Pc, consumers: seq<Pc>, outs: seq<int>, got: seq<nat>)

  // ---- the program ----

  /** What the producer puts into the buffer: 0..loops-1, then one -1 for each consumer. */
  function Item(c: Config, k: nat): int { if k < c.loops then k else -1 }

  function Total(c: Config): nat { c.loops + c.consumers }

  ghost predicate Init(c: Config, s: State) {
    && |s.buffer| == c.max && |s.consumers| == c.consumers
    && s.fillPtr == s.usePtr == s.numFull == s.made == 0 && !s.held && s.outs == []
    && |s.got| == c.consumers && (forall i | 0 <= i < |s.got| :: s.got[i] == 0)
    && s.producer == (if Total(c) == 0 then Done else Ready)
    && (forall i | 0 <= i < |s.consumers| :: s.consumers[i] == Ready)
  }

  /** do_fill(value) */
  function DoFill(c: Config, s: State, value: int): State
    requires s.fillPtr < |s.buffer| && c.max > 0
  {
    s.(buffer := s.buffer[s.fillPtr := value], fillPtr := (s.fillPtr + 1) % c.max, numFull := s.numFull + 1)
  }

  /** do_get() */
  function DoGet(c: Config, s: State): (State, int)
    requires s.usePtr < |s.buffer| && c.max > 0 && s.numFull > 0
  {
    (s.(usePtr := (s.usePtr + 1) % c.max, numFull := s.numFull - 1), s.buffer[s.usePtr])
  }

  datatype Step =
    | ProducerLock
    | ProducerWait
    | ProducerFill(wake: nat)
    | ConsumerLock(i: nat)
    | ConsumerWait(i: nat)
    | ConsumerGet(i: nat)
    | SpuriousProducer
    | SpuriousConsumer(i: nat)

  /** Cond_signal(&fill): one waiting consumer is woken if there is one. */
  ghost predicate Signalled(cs: seq<Pc>, cs': seq<Pc>, i: nat) {
    if Asleep in cs then i < |cs| && cs[i] == Asleep && cs' == cs[i := Woken] else cs' == cs
  }

  /** Cond_signal(&empty): the producer is its only possible waiter. */
  function WakeProducer(p: Pc): Pc { if p == Asleep then Woken else p }

  ghost predicate NextStep(c: Config, s: State, t: State, step: Step) {
    match step
    case ProducerLock =>
      s.producer in {Ready, Woken} && !s.held && t == s.(producer := Holding, held := true)
    case ProducerWait =>
      s.producer == Holding && s.numFull == c.max && t == s.(producer := Asleep, held := false)
    case ProducerFill(i) =>
      && s.producer == Holding && s.numFull != c.max && s.fillPtr < |s.buffer| && c.max > 0
      && |t.consumers| == |s.consumers| && Signalled(s.consumers, t.consumers, i)
      && t == DoFill(c, s, Item(c, s.made)).(
           consumers := t.consumers, made := s.made + 1, held := false,
           producer := if s.made + 1 == Total(c) then Done else Ready)
    case ConsumerLock(i) =>
      && i < |s.consumers| && s.consumers[i] in {Ready, Woken} && !s.held
      && t == s.(consumers := s.consumers[i := Holding], held := true)
    case ConsumerWait(i) =>
      && i < |s.consumers| && s.consumers[i] == Holding && s.numFull == 0
      && t == s.(consumers := s.consumers[i := Asleep], held := false)
    case ConsumerGet(i) =>
      && i < |s.consumers| == |s.got| && s.consumers[i] == Holding
      && s.numFull != 0 && s.usePtr < |s.buffer| && c.max > 0
      && (var (u, tmp) := DoGet(c, s);
          t == u.(consumers := s.consumers[i := if tmp == -1 then Done else Ready],
                  producer := WakeProducer(s.producer), held := false, outs := s.outs + [tmp],
                  got := if tmp == -1 then s.got[i := s.got[i] + 1] else s.got))
    case SpuriousProducer =>
      s.producer == Asleep && t == s.(producer := Woken)
    case SpuriousConsumer(i) =>
      i < |s.consumers| && s.consumers[i] == Asleep && t == s.(consumers := s.consumers[i := Woken])
  }

  ghost predicate Next(c: Config, s: State, t: State) { exists step :: NextStep(c, s, t, step) }

  ghost predicate Run(c: Config, run: seq<State>) {
    |run| > 0 && Init(c, run[0]) && forall i | 0 <= i < |run| - 1 :: Next(c, run[i], run[i + 1])
  }

  /** The end-of-production markers among the first n values out. */
  function Markers(c: Config, n: nat): nat { if n <= c.loops then 0 else n - c.loops }

  // ---- the invariant ----

  /** Exactly one thread holds the mutex when it is held. */
  ghost predicate Mutex(s: State) {
    Count(s.consumers, {Holding}) + (if s.producer == Holding then 1 else 0) == if s.held then 1 else 0
  }

  /** Position k of the ring counted from use_ptr. */
  function Slot(usePtr: nat, k: nat, max: nat): (r: int) { if usePtr + k < max then usePtr + k else usePtr + k - max }

  /** The ring holds items |outs| .. made-1, in order. */
  ghost predicate RingOk(c: Config, s: State) {
    && |s.buffer| == c.max && s.usePtr < c.max && s.numFull <= c.max
    && s.fillPtr == Slot(s.usePtr, s.numFull, c.max)
    && s.made == |s.outs| + s.numFull <= Total(c)
    && (forall k: nat | k < |s.outs| :: s.outs[k] == Item(c, k))
    && (forall k: nat | k < s.numFull :: s.buffer[Slot(s.usePtr, k, c.max)] == Item(c, |s.outs| + k))
  }

  /** Finished consumers have taken one marker each; the producer is done when it has made everything. */
  ghost predicate Finish(c: Config, s: State) {
    && |s.consumers| == |s.got| == c.consumers
    && (forall i | 0 <= i < |s.got| :: s.got[i] == if s.consumers[i] == Done then 1 else 0)
    && Count(s.consumers, {Done}) == Markers(c, |s.outs|)
    && (s.producer == Done <==> s.made == Total(c))
  }

  /** No wakeup is lost: on either side, sleeping means that enough others are awake. */
  ghost predicate NoLostWakeup(c: Config, s: State) {
    && (Asleep in s.consumers ==> Count(s.consumers, {Woken, Holding}) >= s.numFull)
    && (s.producer == Asleep ==> s.numFull == c.max)
  }

  ghost predicate Inv(c: Config, s: State) {
    ValidConfig(c) && Mutex(s) && RingOk(c, s) && Finish(c, s) && NoLostWakeup(c, s)
  }

  lemma InitInv(c: Config, s: State)
    requires ValidConfig(c) && Init(c, s)
    ensures Inv(c, s)
  {
    CountZero(s.consumers, {Holding});
    CountZero(s.consumers, {Done});
  }

  // ---- each step keeps it ----

  lemma ModStep(x: nat, m: nat)
    requires x < m
    ensures (x + 1) % m == if x + 1 < m then x + 1 else 0
  {
    if x + 1 == m { assert m % m == 0; }
  }

  lemma ProducerLockInv(c: Config, s: State, t: State)
    requires Inv(c, s) && NextStep(c, s, t, ProducerLock)
    ensures Inv(c, t)
  {
  }

  lemma ProducerWaitInv(c: Config, s: State, t: State)
    requires Inv(c, s) && NextStep(c, s, t, ProducerWait)
    ensures Inv(c, t)
  {
  }

  lemma FillRing(c: Config, s: State, t: State, i: nat)
    requires ValidConfig(c) && RingOk(c, s) && s.made < Total(c) && NextStep(c, s, t, ProducerFill(i))
    ensures RingOk(c, t)
  {
    ModStep(s.fillPtr, c.max);
    forall k: nat | k < t.numFull
      ensures t.buffer[Slot(t.usePtr, k, c.max)] == Item(c, |t.outs| + k)
    {
      if k < s.numFull {
        assert s.buffer[Slot(s.usePtr, k, c.max)] == Item(c, |s.outs| + k);
        assert Slot(s.usePtr, k, c.max) != s.fillPtr;
      }
    }
  }

  lemma ProducerFillInv(c: Config, s: State, t: State, i: nat)
    requires Inv(c, s) && NextStep(c, s, t, ProducerFill(i))
    ensures Inv(c, t)
  {
    FillRing(c, s, t, i);
    if Asleep in s.consumers {
      CountUpdate(s.consumers, {Holding}, i, Woken);
      CountUpdate(s.consumers, {Done}, i, Woken);
      CountUpdate(s.consumers, {Woken, Holding}, i, Woken);
      assert Asleep in t.consumers ==> Asleep in s.consumers;
    }
  }

  lemma ConsumerLockInv(c: Config, s: State, t: State, i: nat)
    requires Inv(c, s) && NextStep(c, s, t, ConsumerLock(i))
    ensures Inv(c, t)
  {
    CountUpdate(s.consumers, {Holding}, i, Holding);
    CountUpdate(s.consumers, {Done}, i, Holding);
    CountUpdate(s.consumers, {Woken, Holding}, i, Holding);
    StillAsleep(s.consumers, i, Holding);
  }

  lemma StillAsleep(cs: seq<Pc>, i: nat, x: Pc)
    requires i < |cs| && x != Asleep
    ensures Asleep in cs[i := x] ==> Asleep in cs
  {
  }

  lemma ConsumerWaitInv(c: Config, s: State, t: State, i: nat)
    requires Inv(c, s) && NextStep(c, s, t, ConsumerWait(i))
    ensures Inv(c, t)
  {
    CountUpdate(s.consumers, {Holding}, i, Asleep);
    CountUpdate(s.consumers, {Done}, i, Asleep);
  }

  lemma GetRing(c: Config, s: State, t: State, i: nat)
    requires ValidConfig(c) && RingOk(c, s) && NextStep(c, s, t, ConsumerGet(i))
    ensures RingOk(c, t) && t.outs == s.outs + [Item(c, |s.outs|)]
  {
    ModStep(s.usePtr, c.max);
    assert s.buffer[Slot(s.usePtr, 0, c.max)] == Item(c, |s.outs| + 0);
    forall k: nat | k < t.numFull
      ensures t.buffer[Slot(t.usePtr, k, c.max)] == Item(c, |t.outs| + k)
    {
      assert s.buffer[Slot(s.usePtr, k + 1, c.max)] == Item(c, |s.outs| + (k + 1));
    }
  }

  lemma ConsumerGetInv(c: Config, s: State, t: State, i: nat)
    requires Inv(c, s) && NextStep(c, s, t, ConsumerGet(i))
    ensures Inv(c, t)
  {
    GetRing(c, s, t, i);
    var x := t.consumers[i];
    CountUpdate(s.consumers, {Holding}, i, x);
    CountUpdate(s.consumers, {Done}, i, x);
    CountUpdate(s.consumers, {Woken, Holding}, i, x);
    StillAsleep(s.consumers, i, x);
  }

  lemma SpuriousConsumerInv(c: Config, s: State, t: State, i: nat)
    requires Inv(c, s) && NextStep(c, s, t, SpuriousConsumer(i))
    ensures Inv(c, t)
  {
    CountUpdate(s.consumers, {Holding}, i, Woken);
    CountUpdate(s.consumers, {Done}, i, Woken);
    CountUpdate(s.consumers, {Woken, Holding}, i, Woken);
    StillAsleep(s.consumers, i, Woken);
  }

  lemma NextInv(c: Config, s: State, t: State)
    requires Inv(c, s) && Next(c, s, t)
    ensures Inv(c, t)
  {
    hide Inv;
    var step :| NextStep(c, s, t, step);
    match step {
      case ProducerLock => ProducerLockInv(c, s, t);
      case ProducerWait => ProducerWaitInv(c, s, t);
      case ProducerFill(i) => ProducerFillInv(c, s, t, i);
      case ConsumerLock(i) => ConsumerLockInv(c, s, t, i);
      case ConsumerWait(i) => ConsumerWaitInv(c, s, t, i);
      case ConsumerGet(i) => ConsumerGetInv(c, s, t, i);
      case SpuriousProducer => SpuriousProducerInv(c, s, t);
      case SpuriousConsumer(i) => SpuriousConsumerInv(c, s, t, i);
    }
  }

  lemma SpuriousProducerInv(c: Config, s: State, t: State)
    requires Inv(c, s) && NextStep(c, s, t, SpuriousProducer)
    ensures Inv(c, t)
  {
  }

  lemma {:induction false} RunInv(c: Config, run: seq<State>, n: nat)
    requires ValidConfig(c) && Run(c, run) && n < |run|
    ensures Inv(c, run[n])
  {
    hide Inv, Next, Init;
    if n == 0 {
      InitInv(c, run[0]);
    } else {
      RunInv(c, run, n - 1);
      assert Next(c, run[n - 1], run[n - 1 + 1]);
      NextInv(c, run[n - 1], run[n]);
    }
  }

  // ---- main results ----

  ghost predicate AllDone(s: State) {
    s.producer == Done && forall i | 0 <= i < |s.consumers| :: s.consumers[i] == Done
  }

  /** A step that does not depend on luck: not a spurious wakeup. */
  predicate Real(step: Step) { !step.SpuriousProducer? && !step.SpuriousConsumer? }

  ghost predicate CanStep(c: Config, s: State) { exists step, t :: Real(step) && NextStep(c, s, t, step) }

  /** If nobody can lock or holds the mutex, everybody unfinished is asleep: that cannot happen. */
  lemma NotAllAsleep(c: Config, s: State)
    requires Inv(c, s) && s.producer in {Asleep, Done}
    requires forall i | 0 <= i < |s.consumers| :: s.consumers[i] in {Asleep, Done}
    ensures AllDone(s)
  {
    CountZero(s.consumers, {Woken, Holding});
    if Asleep in s.consumers {
      // then num_full == 0, so the producer is done and every marker has been taken
      assert s.numFull == 0 && s.producer == Done;
      assert Count(s.consumers, {Done}) == c.consumers;
      CountFull(s.consumers, {Done});
    } else {
      CountAll(s.consumers, {Done});
    }
  }

  /** Some thread can take a real step in every reachable state until all threads are done. */
  lemma DeadlockFree(c: Config, run: seq<State>, n: nat)
    requires ValidConfig(c) && Run(c, run) && n < |run| && !AllDone(run[n])
    ensures CanStep(c, run[n])
  {
    RunInv(c, run, n);
    var s := run[n];
    if s.producer == Holding {
      HoldingProducerSteps(c, s);
    } else if i :| 0 <= i < |s.consumers| && s.consumers[i] == Holding {
      HoldingConsumerSteps(c, s, i);
    } else {
      CountZero(s.consumers, {Holding});
      if s.producer in {Ready, Woken} {
        assert NextStep(c, s, s.(producer := Holding, held := true), ProducerLock);
      } else if i :| 0 <= i < |s.consumers| && s.consumers[i] in {Ready, Woken} {
        assert NextStep(c, s, s.(consumers := s.consumers[i := Holding], held := true), ConsumerLock(i));
      } else {
        NotAllAsleep(c, s);
        assert false;
      }
    }
  }

  lemma HoldingProducerSteps(c: Config, s: State)
    requires Inv(c, s) && s.producer == Holding
    ensures CanStep(c, s)
  {
    if s.numFull == c.max {
      assert NextStep(c, s, s.(producer := Asleep, held := false), ProducerWait);
    } else {
      var i: nat := if j: nat :| j < |s.consumers| && s.consumers[j] == Asleep then j else 0;
      var cs := if Asleep in s.consumers then s.consumers[i := Woken] else s.consumers;
      var t := DoFill(c, s, Item(c, s.made)).(
                 consumers := cs, made := s.made + 1, held := false,
                 producer := if s.made + 1 == Total(c) then Done else Ready);
      assert NextStep(c, s, t, ProducerFill(i));
    }
  }

  lemma HoldingConsumerSteps(c: Config, s: State, i: nat)
    requires Inv(c, s) && i < |s.consumers| && s.consumers[i] == Holding
    ensures CanStep(c, s)
  {
    if s.numFull == 0 {
      assert NextStep(c, s, s.(consumers := s.consumers[i := Asleep], held := false), ConsumerWait(i));
    } else {
      var (u, tmp) := DoGet(c, s);
      var t := u.(consumers := s.consumers[i := if tmp == -1 then Done else Ready],
                  producer := WakeProducer(s.producer), held := false, outs := s.outs + [tmp],
                  got := if tmp == -1 then s.got[i := s.got[i] + 1] else s.got);
      assert NextStep(c, s, t, ConsumerGet(i));
    }
  }

  /** Values leave in the order produced: 0..loops-1, then the markers. */
  lemma InOrder(c: Config, run: seq<State>, n: nat)
    requires ValidConfig(c) && Run(c, run) && n < |run|
    ensures |run[n].outs| <= Total(c)
    ensures forall k: nat | k < |run[n].outs| :: run[n].outs[k] == if k < c.loops then k else -1
  {
    RunInv(c, run, n);
  }

  /** When all threads are done, consumers have taken everything: each value once and one marker each. */
  lemma AllTaken(c: Config, run: seq<State>, n: nat)
    requires ValidConfig(c) && Run(c, run) && n < |run| && AllDone(run[n])
    ensures |run[n].outs| + run[n].numFull == Total(c) && (c.consumers >= 1 ==> run[n].numFull == 0)
    ensures |run[n].got| == c.consumers && forall i | 0 <= i < c.consumers :: run[n].got[i] == 1
  {
    RunInv(c, run, n);
    CountAll(run[n].consumers, {Done});
  }

  // ---- every run ends, but for spurious wakeups ----

  /** The steps that a thread can take before the next fill or get that concerns it. */
  function Stage(pc: Pc): nat {
    match pc
    case Asleep => 0 case Done => 0 case Holding => 1 case Ready => 2 case Woken => 2
  }

  function Stages(cs: seq<Pc>): nat {
    if cs == [] then 0 else Stages(cs[..|cs| - 1]) + Stage(cs[|cs| - 1])
  }

  /** More than the real steps that are left: four for each fill and each get to come. */
  function Work(c: Config, s: State): int {
    4 * (Total(c) - s.made) + 4 * (Total(c) - |s.outs|) + Stage(s.producer) + Stages(s.consumers)
  }

  lemma {:induction false} StagesSet(cs: seq<Pc>, i: nat, pc: Pc)
    requires i < |cs|
    ensures Stages(cs[i := pc]) == Stages(cs) - Stage(cs[i]) + Stage(pc)
  {
    hide Stage;
    var n := |cs| - 1;
    if i == n {
      assert cs[i := pc][..n] == cs[..n];
    } else {
      StagesSet(cs[..n], i, pc);
      assert cs[i := pc][..n] == cs[..n][i := pc];
    }
  }

  /** A real step does some of the work, and a spurious wakeup adds two. */
  lemma StepWorks(c: Config, s: State, t: State, step: Step)
    requires NextStep(c, s, t, step)
    ensures Work(c, t) <= Work(c, s) + if Real(step) then -1 else 2
  {
    hide Stages, DoFill, DoGet;
    match step
    case ProducerFill(i) =>
      FillKeeps(c, s);
      if Asleep in s.consumers { StagesSet(s.consumers, i, Woken); }
    case ConsumerLock(i) => StagesSet(s.consumers, i, Holding);
    case ConsumerWait(i) => StagesSet(s.consumers, i, Asleep);
    case ConsumerGet(i) =>
      GetKeeps(c, s);
      StagesSet(s.consumers, i, if DoGet(c, s).1 == -1 then Done else Ready);
    case SpuriousConsumer(i) => StagesSet(s.consumers, i, Woken);
    case _ =>
  }

  lemma FillKeeps(c: Config, s: State)
    requires s.fillPtr < |s.buffer| && c.max > 0
    ensures DoFill(c, s, Item(c, s.made)).outs == s.outs
  {
  }

  lemma GetKeeps(c: Config, s: State)
    requires s.usePtr < |s.buffer| && c.max > 0 && s.numFull > 0
    ensures DoGet(c, s).0.made == s.made
  {
  }

  ghost predicate Taken(c: Config, run: seq<State>, steps: seq<Step>) {
    Run(c, run) && |run| == |steps| + 1 && forall k | 0 <= k < |steps| :: NextStep(c, run[k], run[k + 1], steps[k])
  }

  function Reals(steps: seq<Step>): nat {
    if steps == [] then 0 else Reals(steps[..|steps| - 1]) + if Real(steps[|steps| - 1]) then 1 else 0
  }

  /** The real steps are at most eight for each value and marker, two for each thread and two for each wakeup. */
  lemma RunEnds(c: Config, run: seq<State>, steps: seq<Step>)
    requires ValidConfig(c) && Taken(c, run, steps)
    ensures Reals(steps) <= 8 * Total(c) + 2 * (c.consumers + 1) + 2 * (|steps| - Reals(steps))
  {
    hide NextStep, Stages;
    WorkDone(c, run, steps, |steps|);
    InOrder(c, run, |steps|);
    RunInv(c, run, |steps|);
    assert steps[..|steps|] == steps;
    ReadyStages(run[0].consumers);
  }

  lemma {:induction false} ReadyStages(cs: seq<Pc>)
    requires forall i | 0 <= i < |cs| :: cs[i] == Ready
    ensures Stages(cs) == 2 * |cs|
  {
    if cs != [] { ReadyStages(cs[..|cs| - 1]); }
  }

  lemma {:induction false} WorkDone(c: Config, run: seq<State>, steps: seq<Step>, n: nat)
    requires Taken(c, run, steps) && n <= |steps|
    ensures Reals(steps[..n]) + Work(c, run[n]) <= Work(c, run[0]) + 2 * (n - Reals(steps[..n]))
  {
    hide NextStep, Work;
    if n > 0 {
      WorkDone(c, run, steps, n - 1);
      assert steps[..n][..n - 1] == steps[..n - 1] && steps[..n][n - 1] == steps[n - 1];
      assert NextStep(c, run[n - 1], run[n - 1 + 1], steps[n - 1]);
      StepWorks(c, run[n - 1], run[n], steps[n - 1]);
    }
  }

  lemma Extended(c: Config, run: seq<State>, t: State, step: Step)
    requires Run(c, run) && NextStep(c, run[|run| - 1], t, step)
    ensures Run(c, run + [t])
  {
    hide Init, NextStep;
    var run' := run + [t];
    forall k | 0 <= k < |run'| - 1 ensures Next(c, run'[k], run'[k + 1]) {
      if k < |run| - 1 { assert Next(c, run[k], run[k + 1]); }
    }
  }

  /** Every run goes on to a state in which all threads are done. */
  lemma {:induction false} Completes(c: Config, run: seq<State>) returns (all: seq<State>)
    requires ValidConfig(c) && Run(c, run)
    ensures Run(c, all) && run <= all && AllDone(all[|all| - 1])
    decreases Work(c, run[|run| - 1])
  {
    hide NextStep, Work, Init, Next, AllDone;
    var s := run[|run| - 1];
    all := run;
    if !AllDone(s) {
      DeadlockFree(c, run, |run| - 1);
      var step, t :| Real(step) && NextStep(c, s, t, step);
      StepWorks(c, s, t, step);
      Extended(c, run, t, step);
      WorkLeft(c, run + [t]);
      WorkLeft(c, run);
      all := Completes(c, run + [t]);
      Prefix(run, t, all);
    }
  }

  lemma WorkLeft(c: Config, run: seq<State>)
    requires ValidConfig(c) && Run(c, run)
    ensures Work(c, run[|run| - 1]) >= 0
  {
    RunInv(c, run, |run| - 1);
    InOrder(c, run, |run| - 1);
  }

  // ---- what happens otherwise ----

  /** The producer has filled k slots, and nobody has done anything else. */
  ghost function Filled(c: Config, k: nat): State
    requires k <= c.max
  {
    State(seq(c.max, i => if i < k then i else 0), if k < c.max then k else 0, 0, k, false, k,
          if Total(c) == 0 then Done else Ready, seq(c.consumers, _ => Ready), [], seq(c.consumers, _ => 0))
  }

  lemma Starts(c: Config)
    ensures Run(c, [Filled(c, 0)])
  {
  }

  /** The producer alone fills the buffer. */
  lemma {:induction false} FillsUp(c: Config, k: nat) returns (run: seq<State>)
    requires k <= c.max && (k > 0 ==> c.consumers == 0 && c.loops > c.max)
    ensures Run(c, run) && run[|run| - 1] == Filled(c, k)
    decreases k
  {
    if k == 0 {
      Starts(c);
      run := [Filled(c, 0)];
    } else {
      run := FillsUp(c, k - 1);
      var s := Filled(c, k - 1);
      var t := s.(producer := Holding, held := true);
      Extended(c, run, t, ProducerLock);
      FillStep(c, k - 1);
      Extended(c, run + [t], Filled(c, k), ProducerFill(0));
      run := run + [t] + [Filled(c, k)];
    }
  }

  lemma FillStep(c: Config, k: nat)
    requires k < c.max && c.consumers == 0 && c.loops > c.max
    ensures NextStep(c, Filled(c, k).(producer := Holding, held := true), Filled(c, k + 1), ProducerFill(0))
  {
    var s, t := Filled(c, k).(producer := Holding, held := true), Filled(c, k + 1);
    assert s.fillPtr == k && (k + 1) % c.max == t.fillPtr;
    assert t.buffer == s.buffer[k := k];
    assert t.consumers == s.consumers == [];
    assert t == DoFill(c, s, k).(made := k + 1, held := false, producer := Ready);
  }

  /** The producer and the first k consumers are asleep. */
  ghost function Stuck(c: Config, k: nat): State
    requires k <= c.consumers
  {
    Filled(c, c.max).(producer := Asleep, consumers := seq(c.consumers, i => if i < k then Asleep else Ready))
  }

  lemma {:induction false} FallsAsleep(c: Config, k: nat) returns (run: seq<State>)
    requires k <= c.consumers && Total(c) > 0 && (c.max == 0 || (c.consumers == 0 && c.loops > c.max))
    ensures Run(c, run) && run[|run| - 1] == Stuck(c, k)
    decreases k
  {
    hide Run;
    if k == 0 {
      run := FillsUp(c, c.max);
      var s := Filled(c, c.max);
      var t := s.(producer := Holding, held := true);
      Extended(c, run, t, ProducerLock);
      assert Stuck(c, 0) == t.(producer := Asleep, held := false);
      Extended(c, run + [t], Stuck(c, 0), ProducerWait);
      run := run + [t] + [Stuck(c, 0)];
    } else {
      run := FallsAsleep(c, k - 1);
      var s, i := Stuck(c, k - 1), k - 1;
      var t := s.(consumers := s.consumers[i := Holding], held := true);
      Extended(c, run, t, ConsumerLock(i));
      assert Stuck(c, k) == t.(consumers := t.consumers[i := Asleep], held := false);
      Extended(c, run + [t], Stuck(c, k), ConsumerWait(i));
      run := run + [t] + [Stuck(c, k)];
    }
  }

  /**
   * Without a slot, or without consumers and with more values than slots, a run comes to a state that only a
   * spurious wakeup leaves; so DeadlockFree and Completes hold for exactly the configurations they ask for, but
   * for the one with nothing to do.
   */
  lemma Deadlocks(c: Config) returns (run: seq<State>)
    requires !ValidConfig(c) && Total(c) > 0
    ensures Run(c, run) && !AllDone(run[|run| - 1])
    ensures !CanStep(c, run[|run| - 1])
  {
    hide Run;
    run := FallsAsleep(c, c.consumers);
  }
}
