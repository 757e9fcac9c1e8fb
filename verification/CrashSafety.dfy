/** Safety of the logging layer over every run of CrashMachine. */
module CrashSafety {
  import opened Blocks
  import opened RedoLog
  import opened CrashMachine

  // ---- effects ----

  lemma ApplySameHome(c: Config, h: Disk, k: Disk, ws: seq<Write>)
    requires SameHome(c, h, k)
    ensures SameHome(c, Apply(h, ws), Apply(k, ws))
  {
    if ws != [] { ApplySameHome(c, h, k, ws[..|ws| - 1]); }
  }

  lemma ApplySnoc(h: Disk, ws: seq<Write>, w: Write)
    requires w.block < |h|
    ensures Apply(h, ws + [w]) == Apply(h, ws)[w.block := w.data]
  {
    assert (ws + [w])[..|ws|] == ws;
  }

  lemma EffectSnoc(h: Disk, gs: seq<Group>, g: Group)
    ensures Effect(h, gs + [g]) == Apply(Effect(h, gs), g.writes)
  {
    assert (gs + [g])[..|gs|] == gs;
  }

  lemma WritesOfSnoc(ws: seq<Write>, w: Write, op: OpId)
    ensures WritesOf(ws + [w], op) == if w.op == op then WritesOf(ws, op) + [w] else WritesOf(ws, op)
  {
    assert (ws + [w])[..|ws|] == ws;
  }

  lemma WritesOfNobody(ws: seq<Write>, op: OpId)
    requires forall w | w in ws :: w.op != op
    ensures WritesOf(ws, op) == []
  {
  }

  // ---- budgets ----

  lemma {:induction false} UnusedWithout(ops: map<OpId, nat>, op: OpId)
    requires op in ops
    ensures Unused(ops) == MAXOPBLOCKS - ops[op] + Unused(ops - {op})
    decreases |ops|
  {
    var first :| first in ops && Unused(ops) == MAXOPBLOCKS - ops[first] + Unused(ops - {first});
    if first != op {
      UnusedWithout(ops - {first}, op);
      UnusedWithout(ops - {op}, first);
      assert ops - {first} - {op} == ops - {op} - {first};
    }
  }

  lemma UnusedUpdate(ops: map<OpId, nat>, op: OpId, n: nat)
    ensures op in ops ==> Unused(ops[op := n]) == Unused(ops) + ops[op] - n
    ensures op !in ops ==> Unused(ops[op := n]) == Unused(ops) + MAXOPBLOCKS - n
  {
    UnusedWithout(ops[op := n], op);
    if op in ops {
      UnusedWithout(ops, op);
      assert ops[op := n] - {op} == ops - {op};
    } else {
      assert ops[op := n] - {op} == ops;
    }
  }

  /** Outstanding operations have reserved at most MAXOPBLOCKS each. */
  lemma {:induction false} UnusedBounds(ops: map<OpId, nat>)
    requires forall op | op in ops :: ops[op] <= MAXOPBLOCKS
    ensures 0 <= Unused(ops) <= |ops| * MAXOPBLOCKS
    decreases |ops|
  {
    if ops != map[] {
      var op :| op in ops;
      UnusedWithout(ops, op);
      assert (ops - {op}).Keys == ops.Keys - {op};
      UnusedBounds(ops - {op});
    }
  }

  // ---- each step keeps the invariant ----

  /** The record of committed groups is only ever extended. */
  ghost predicate Grows(s: State, t: State) {
    s.groups <= t.groups && s.acked <= t.acked
  }

  lemma InitInv(c: Config, base: Disk, s: State)
    requires Init(c, base, s)
    ensures Inv(c, base, s)
  {
    RecoverEmpty(c, base);
    assert View(base, map[]) == base;
  }

  lemma KeepsDurable(c: Config, base: Disk, s: State, t: State)
    requires Durable(c, base, s) && t.disk == s.disk && t.groups == s.groups
    ensures Durable(c, base, t)
  {
  }

  lemma BeginSpace(c: Config, s: State, t: State, op: OpId)
    requires Space(c, s) && s.ops.Keys <= s.did.Keys && BeginStep(c, s, t, op)
    ensures Space(c, t)
  {
    UnusedUpdate(s.ops, op, 0);
    UnusedBounds(s.ops);
  }

  lemma BeginOpenGroup(s: State, t: State, op: OpId)
    requires OpenGroup(s) && Whole(s) && op !in s.did
    requires t == s.(ops := s.ops[op := 0], did := s.did[op := []])
    ensures OpenGroup(t) && Whole(t)
  {
    assert forall w | w in s.cur.writes :: w.op != op;
    WritesOfNobody(s.cur.writes, op);
    forall g, o | g in s.groups && o in g.ops ensures o != op {
      assert WholeGroup(s, g);
    }
    WholeKept(s, t, {op});
  }

  lemma BeginInv(c: Config, base: Disk, s: State, t: State, op: OpId)
    requires Inv(c, base, s) && NextStep(c, s, t, Begin(op))
    ensures Inv(c, base, t) && Grows(s, t)
  {
    KeepsDurable(c, base, s, t);
    BeginSpace(c, s, t, op);
    BeginOpenGroup(s, t, op);
  }

  /** Operations of closed groups are not touched by a step that only changes others. */
  lemma WholeKept(s: State, t: State, touched: set<OpId>)
    requires Whole(s) && t.groups == s.groups
    requires forall g, op | g in s.groups && op in g.ops :: op !in touched
    requires forall op | op !in touched && op in s.did :: op in t.did && t.did[op] == s.did[op]
    requires forall op | op !in touched && op !in s.ops :: op !in t.ops
    ensures Whole(t)
  {
    forall g | g in t.groups ensures WholeGroup(t, g) {
      assert WholeGroup(s, g);
    }
  }

  lemma LogWriteSpace(c: Config, base: Disk, s: State, t: State, w: Write)
    requires Inv(c, base, s) && LogWriteStep(c, s, t, w)
    ensures Space(c, t)
  {
    hide Durable, Coherent, Whole, OpenGroup, Unused;
    if w.block !in s.lh {
      UnusedUpdate(s.ops, w.op, s.ops[w.op] + 1);
    }
  }

  lemma LogWriteCoherent(c: Config, base: Disk, s: State, t: State, w: Write)
    requires Inv(c, base, s) && LogWriteStep(c, s, t, w)
    ensures Coherent(c, base, t)
  {
    ApplySnoc(Effect(base, s.groups), s.cur.writes, w);
  }

  lemma LogWriteOpenGroup(s: State, t: State, w: Write)
    requires OpenGroup(s) && w.op in s.ops
    requires t.ops.Keys == s.ops.Keys && t.groups == s.groups
    requires t.cur == s.cur.(writes := s.cur.writes + [w])
    requires t.did == s.did[w.op := s.did[w.op] + [w]]
    ensures OpenGroup(t)
  {
    forall op | op in t.cur.ops || op in t.ops
      ensures op in t.did && WritesOf(t.cur.writes, op) == t.did[op]
    {
      WritesOfSnoc(s.cur.writes, w, op);
    }
  }

  lemma LogWriteInv(c: Config, base: Disk, s: State, t: State, w: Write)
    requires Inv(c, base, s) && NextStep(c, s, t, LogWrite(w.op, w.block, w.data))
    ensures Inv(c, base, t) && Grows(s, t)
  {
    hide Coherent, Space, Durable, Unused;
    KeepsDurable(c, base, s, t);
    LogWriteSpace(c, base, s, t, w);
    LogWriteCoherent(c, base, s, t, w);
    LogWriteOpenGroup(s, t, w);
    WholeKept(s, t, {w.op});
  }

  lemma EndInv(c: Config, base: Disk, s: State, t: State, op: OpId)
    requires Inv(c, base, s) && NextStep(c, s, t, End(op))
    ensures Inv(c, base, t) && Grows(s, t)
  {
    KeepsDurable(c, base, s, t);
    UnusedWithout(s.ops, op);
    WholeKept(s, t, {});
    assert OpenGroup(t);
  }

  /** Closing the open group while only op is outstanding makes it a whole group. */
  lemma ClosedWhole(s: State, t: State, op: OpId)
    requires Whole(s) && OpenGroup(s) && s.ops.Keys == {op}
    requires t.groups == s.groups + [Closed(s, op)] && t.did == s.did && t.ops == map[]
    ensures Whole(t)
  {
    forall g | g in t.groups ensures WholeGroup(t, g) {
      if g in s.groups { assert WholeGroup(s, g); }
    }
    forall i, j | 0 <= i < j < |t.groups| ensures t.groups[i].ops !! t.groups[j].ops {
      assert s.groups == t.groups[..|s.groups|];
      if j == |s.groups| { assert t.groups[i] in s.groups; }
    }
  }

  /** The pinned buffers of a commit are exactly the open group's effect on the home blocks. */
  lemma CommittedHome(c: Config, base: Disk, s: State, op: OpId, e: Disk)
    requires Inv(c, base, s) && CommitReady(c, s, op) && |e| == c.blocks
    requires forall i | 0 <= i < |s.lh| :: e[s.lh[i]] == Logged(s)[i]
    requires forall b: nat | Home(c, b) && b !in s.lh :: e[b] == s.disk[b]
    ensures SameHome(c, e, Effect(base, s.groups + [Closed(s, op)]))
  {
    EffectSnoc(base, s.groups, Closed(s, op));
    forall b: nat | Home(c, b) ensures e[b] == View(s.disk, s.cache)[b] {
      if b in s.lh {
        var i :| 0 <= i < |s.lh| && s.lh[i] == b;
      }
    }
  }

  lemma EndAndCommitInv(c: Config, base: Disk, s: State, t: State, op: OpId)
    requires Inv(c, base, s) && NextStep(c, s, t, EndAndCommit(op))
    ensures Inv(c, base, t) && Grows(s, t)
  {
    hide CommitState;
    CommitDone(c, s.disk, s.lh, Logged(s));
    CommittedHome(c, base, s, op, t.disk);
    RecoverEmpty(c, t.disk);
    ClosedWhole(s, t, op);
    assert View(t.disk, map[]) == t.disk;
  }

  lemma CrashInv(c: Config, base: Disk, s: State, t: State)
    requires Inv(c, base, s) && NextStep(c, s, t, Step.Crash)
    ensures Inv(c, base, t) && Grows(s, t)
  {
    KeepsDurable(c, base, s, t);
    WholeKept(s, t, {});
  }

  lemma CrashInCommitInv(c: Config, base: Disk, s: State, t: State, op: OpId, k: nat)
    requires Inv(c, base, s) && NextStep(c, s, t, Step.CrashInCommit(op, k))
    ensures Inv(c, base, t) && Grows(s, t)
  {
    hide Recovered, CommitState;
    RedoLog.CrashInCommit(c, s.disk, s.lh, Logged(s), k);
    if k <= |s.lh| {
      WholeKept(s, t, {});
    } else {
      CommittedHome(c, base, s, op, Recovered(c, t.disk));
      ClosedWhole(s, t, op);
    }
  }

  lemma RecoveryInv(c: Config, base: Disk, s: State, t: State)
    requires Inv(c, base, s) && NextStep(c, s, t, Step.Recover)
    ensures Inv(c, base, t) && Grows(s, t)
  {
    RecoveredBlocks(c, s.disk);
    RecoverEmpty(c, t.disk);
    assert View(t.disk, map[]) == t.disk;
    WholeKept(s, t, {});
  }

  lemma CrashInRecoveryInv(c: Config, base: Disk, s: State, t: State, k: nat)
    requires Inv(c, base, s) && NextStep(c, s, t, Step.CrashInRecovery(k))
    ensures Inv(c, base, t) && Grows(s, t)
  {
    hide Recovered, RecoverState;
    RedoLog.CrashInRecovery(c, s.disk, k);
    WholeKept(s, t, {});
  }

  lemma NextInv(c: Config, base: Disk, s: State, t: State)
    requires Inv(c, base, s) && Next(c, s, t)
    ensures Inv(c, base, t)
    ensures Grows(s, t)
  {
    hide NextStep, Inv, Grows;
    var step :| NextStep(c, s, t, step);
    match step {
      case Begin(op) => BeginInv(c, base, s, t, op);
      case LogWrite(op, b, data) => LogWriteInv(c, base, s, t, Write(op, b, data));
      case End(op) => EndInv(c, base, s, t, op);
      case EndAndCommit(op) => EndAndCommitInv(c, base, s, t, op);
      case Crash => CrashInv(c, base, s, t);
      case CrashInCommit(op, k) => CrashInCommitInv(c, base, s, t, op, k);
      case Recover => RecoveryInv(c, base, s, t);
      case CrashInRecovery(k) => CrashInRecoveryInv(c, base, s, t, k);
    }
  }

  lemma {:induction false} RunInv(c: Config, base: Disk, run: seq<State>, n: nat)
    requires Run(c, base, run) && n < |run|
    ensures Inv(c, base, run[n])
  {
    if n == 0 {
      InitInv(c, base, run[0]);
    } else {
      RunInv(c, base, run, n - 1);
      assert Next(c, run[n - 1], run[n - 1 + 1]);
      NextInv(c, base, run[n - 1], run[n]);
    }
  }

  // ---- main results ----

  /**
   * Crash atomicity.  In every state of every run, recovering the disk now gives the home blocks
   * of the committed groups and nothing else; those groups hold whole operations; and they include
   * every group whose commit returned.
   */
  lemma CrashAtomicity(c: Config, base: Disk, run: seq<State>, n: nat)
    requires Run(c, base, run) && n < |run|
    ensures var s := run[n];
            && GoodDisk(c, s.disk)
            && SameHome(c, Recovered(c, s.disk), Effect(base, s.groups))
            && Whole(s)
            && s.acked <= |s.groups|
  {
    RunInv(c, base, run, n);
  }

  /** Durability.  A group that passed its commit point is in every later state, in its place. */
  lemma {:induction false} NoGroupLost(c: Config, base: Disk, run: seq<State>, i: nat, j: nat)
    requires Run(c, base, run) && i <= j < |run|
    ensures run[i].groups <= run[j].groups && run[i].acked <= run[j].acked
    decreases j
  {
    hide Inv, Next;
    if i < j {
      NoGroupLost(c, base, run, i, j - 1);
      RunInv(c, base, run, j - 1);
      assert Next(c, run[j - 1], run[j - 1 + 1]);
      NextInv(c, base, run[j - 1], run[j]);
    }
  }

  /**
   * Isolation from the disk.  While the system runs, what bread() returns is the committed groups
   * followed by the open one, and no home block on the disk shows any part of the open group.
   */
  lemma RunningView(c: Config, base: Disk, run: seq<State>, n: nat)
    requires Run(c, base, run) && n < |run| && run[n].up
    ensures var s := run[n];
            && SameHome(c, s.disk, Effect(base, s.groups))
            && SameHome(c, View(s.disk, s.cache), Apply(Effect(base, s.groups), s.cur.writes))
  {
    RunInv(c, base, run, n);
  }

  /**
   * Log space.  Logged block numbers are distinct home blocks and, with the unused budgets of the
   * outstanding operations, never exceed LOGSIZE.
   */
  lemma ReservedSpace(c: Config, base: Disk, run: seq<State>, n: nat)
    requires Run(c, base, run) && n < |run| && run[n].up
    ensures Loggable(c, run[n].lh)
    ensures 0 <= |run[n].lh| + Unused(run[n].ops) <= LOGSIZE
  {
    RunInv(c, base, run, n);
    UnusedBounds(run[n].ops);
  }

  /**
   * Operations are all or nothing.  Either no committed group holds a write of op, or exactly one
   * does, and that one holds every write op ever made, in order.
   */
  lemma AllOrNothing(c: Config, base: Disk, run: seq<State>, n: nat, op: OpId)
    requires Run(c, base, run) && n < |run|
    ensures var s := run[n];
            || (forall g | g in s.groups :: WritesOf(g.writes, op) == [])
            || (exists i | 0 <= i < |s.groups| ::
                  && op in s.groups[i].ops && op in s.did && WritesOf(s.groups[i].writes, op) == s.did[op]
                  && forall j | 0 <= j < |s.groups| && j != i :: WritesOf(s.groups[j].writes, op) == [])
  {
    RunInv(c, base, run, n);
    var s := run[n];
    forall j | 0 <= j < |s.groups| && op !in s.groups[j].ops
      ensures WritesOf(s.groups[j].writes, op) == []
    {
      assert s.groups[j] in s.groups && WholeGroup(s, s.groups[j]);
      WritesOfNobody(s.groups[j].writes, op);
    }
    if i :| 0 <= i < |s.groups| && op in s.groups[i].ops {
      assert s.groups[i] in s.groups && WholeGroup(s, s.groups[i]);
    }
  }

  /** op began, is no longer running, and is neither in the open group nor in a committed one. */
  ghost predicate Lost(s: State, op: OpId) {
    op in s.did && op !in s.ops && op !in s.cur.ops && forall g | g in s.groups :: op !in g.ops
  }

  /** An operation lost in a crash stays lost: none of its writes shows up later. */
  lemma {:induction false} LostForGood(c: Config, base: Disk, run: seq<State>, i: nat, j: nat, op: OpId)
    requires Run(c, base, run) && i <= j < |run| && Lost(run[i], op)
    ensures Lost(run[j], op)
    decreases j
  {
    hide Next;
    if i < j {
      LostForGood(c, base, run, i, j - 1, op);
      assert Next(c, run[j - 1], run[j - 1 + 1]);
      LostStep(c, run[j - 1], run[j], op);
    }
  }

  lemma LostStep(c: Config, s: State, t: State, op: OpId)
    requires Lost(s, op) && Next(c, s, t)
    ensures Lost(t, op)
  {
    hide NextStep, Lost;
    var step :| NextStep(c, s, t, step);
    if step.EndAndCommit? || step.CrashInCommit? {
      LostInCommit(c, s, t, op, step);
    } else {
      LostInStep(c, s, t, op, step);
    }
  }

  lemma LostInCommit(c: Config, s: State, t: State, op: OpId, step: Step)
    requires Lost(s, op) && NextStep(c, s, t, step) && (step.EndAndCommit? || step.CrashInCommit?)
    ensures Lost(t, op)
  {
    hide CommitState, Logged, Loggable, ValidConfig;
    assert step.op in s.ops.Keys;
  }

  lemma LostInStep(c: Config, s: State, t: State, op: OpId, step: Step)
    requires Lost(s, op) && NextStep(c, s, t, step) && !step.EndAndCommit? && !step.CrashInCommit?
    ensures Lost(t, op)
  {
    hide CommitState, CommitReady, RecoverState, Recovered, GoodDisk, Home, RecoverWrites;
  }
}
