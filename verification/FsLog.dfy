/**
 * The file system on the log: sys_write()'s transactions run on log.c and fs.c together, crash, and
 * start again.  No history of such a system ever loses, splits or adds a file write.
 */
module FsLog {
  import opened Blocks
  import opened RedoLog
  import opened CrashMachine
  import opened LogProgram
  import opened FsLayout
  import opened FsOwnership
  import opened LogCalls
  import opened Ranges
  import opened FsProgram
  import opened FileWrite
  import opened FsCrash
  import CrashSafety

  // ---- log_write() calls as steps of the log ----

  /** The calls as writes by operation op. */
  function WritesBy(op: OpId, calls: seq<LogCall>): (ws: seq<Write>)
    ensures |ws| == |calls|
  {
    if calls == [] then []
    else
      var w := calls[|calls| - 1];
      WritesBy(op, calls[..|calls| - 1]) + [Write(op, w.block, w.data)]
  }

  lemma {:induction false} ApplyCalls(h: Disk, ws: seq<Write>, op: OpId, calls: seq<LogCall>)
    ensures Apply(h, ws + WritesBy(op, calls)) == Replay(Apply(h, ws), calls)
    decreases |calls|
  {
    if calls == [] {
      assert ws + [] == ws;
    } else {
      var w := calls[|calls| - 1];
      var rest := calls[..|calls| - 1];
      var all := ws + WritesBy(op, rest);
      ApplyCalls(h, ws, op, rest);
      assert ws + WritesBy(op, calls) == all + [Write(op, w.block, w.data)];
      assert (all + [Write(op, w.block, w.data)])[..|all|] == all;
    }
  }

  lemma {:induction false} ReplaySameHome(c: Config, h: Disk, k: Disk, calls: seq<LogCall>)
    requires SameHome(c, h, k)
    ensures SameHome(c, Replay(h, calls), Replay(k, calls))
    decreases |calls|
  {
    if calls != [] {
      ReplaySameHome(c, h, k, calls[..|calls| - 1]);
    }
  }

  lemma CallsStep(op: OpId, calls: seq<LogCall>, k: nat)
    requires k < |calls|
    ensures WritesBy(op, calls[..k + 1]) == WritesBy(op, calls[..k]) + [Write(op, calls[k].block, calls[k].data)]
    ensures CallBlocks(calls[..k + 1]) == CallBlocks(calls[..k]) + {calls[k].block}
  {
    assert calls[..k + 1][..k] == calls[..k];
  }

  lemma {:induction false} CallsPrefix(calls: seq<LogCall>, k: nat)
    requires k <= |calls|
    ensures CallBlocks(calls[..k]) <= CallBlocks(calls) && |CallBlocks(calls[..k])| <= |CallBlocks(calls)|
    decreases |calls| - k
  {
    if k == |calls| {
      assert calls[..k] == calls;
    } else {
      CallsPrefix(calls, k + 1);
      CallsStep(0, calls, k);
      SmallerSet(CallBlocks(calls[..k]), CallBlocks(calls));
    }
  }

  // ---- histories ----

  ghost predicate Past(c: Config, sb: Super, base: Disk, run: seq<State>, done: seq<seq<FileOp>>) {
    && LogApart(c, sb) && Sound(sb, base) && Run(c, base, run)
    && GroupsDo(c, sb, base, run[|run| - 1].groups, done)
  }

  /** d shows the committed groups and the open one, and the open one has done the writes in open. */
  ghost predicate Shows(c: Config, sb: Super, base: Disk, s: State, d: Disk, open: seq<FileOp>) {
    var h := Effect(base, s.groups);
    var h' := Apply(h, s.cur.writes);
    SameHome(c, d, h') && Does(c, sb, h, h', open)
  }

  lemma PastMore(c: Config, sb: Super, base: Disk, run: seq<State>, done: seq<seq<FileOp>>, t: State)
    requires Past(c, sb, base, run, done) && Next(c, run[|run| - 1], t) && t.groups == run[|run| - 1].groups
    ensures Past(c, sb, base, run + [t], done)
  {
    hide LogApart, Sound, GroupsDo, Next;
    RunMore(c, base, run, t);
  }

  lemma RunMore(c: Config, base: Disk, run: seq<State>, t: State)
    requires Run(c, base, run) && Next(c, run[|run| - 1], t)
    ensures Run(c, base, run + [t])
  {
    hide Next;
    var run' := run + [t];
    forall i | 0 <= i < |run'| - 1 ensures Next(c, run'[i], run'[i + 1]) {
      if i < |run| - 1 {
        assert Next(c, run[i], run[i + 1]);
      }
    }
  }

  lemma PastCommit(c: Config, sb: Super, base: Disk, run: seq<State>, done: seq<seq<FileOp>>, t: State, op: OpId,
                   d: Disk, open: seq<FileOp>)
    requires Past(c, sb, base, run, done) && NextStep(c, run[|run| - 1], t, EndAndCommit(op))
    requires Shows(c, sb, base, run[|run| - 1], d, open)
    ensures Past(c, sb, base, run + [t], done + [open]) && Shows(c, sb, base, t, d, [])
    ensures t.acked == |done| + 1 && t.ops == map[] && t.lh == []
  {
    hide LogApart, Sound, Does, CommitState, CommitReady;
    var s := run[|run| - 1];
    assert Next(c, s, t);
    RunMore(c, base, run, t);
    GroupsMore(c, sb, base, s.groups, done, Closed(s, op), open);
    CrashSafety.EffectSnoc(base, s.groups, Closed(s, op));
    DoesNothing(c, sb, Effect(base, t.groups));
  }

  lemma DoesNothing(c: Config, sb: Super, h: Disk)
    ensures Does(c, sb, h, h, [])
  {
  }

  // ---- crashes ----

  /**
   * t is a state in which the machine of this run is found after a crash between run[n] and run[n + 1]:
   * memory is lost at run[n], or the commit that leads to run[n + 1] has got as far as k of its writes.
   */
  ghost predicate CrashPoint(c: Config, run: seq<State>, n: nat, t: State) {
    && n < |run|
    && (NextStep(c, run[n], t, Step.Crash) ||
        (n + 1 < |run| && exists op, k ::
           NextStep(c, run[n], run[n + 1], EndAndCommit(op)) && NextStep(c, run[n], t, Step.CrashInCommit(op, k))))
  }

  lemma CrashGroups(c: Config, base: Disk, run: seq<State>, n: nat, t: State)
    requires Run(c, base, run) && CrashPoint(c, run, n, t)
    ensures n < |run| && Next(c, run[n], t) && t.groups <= run[|run| - 1].groups && !t.up
  {
    hide Run, CommitState, CommitReady;
    CrashSafety.NoGroupLost(c, base, run, n, |run| - 1);
    if NextStep(c, run[n], t, Step.Crash) {
    } else {
      CrashSafety.NoGroupLost(c, base, run, n + 1, |run| - 1);
      var op, k :|
        NextStep(c, run[n], run[n + 1], EndAndCommit(op)) && NextStep(c, run[n], t, Step.CrashInCommit(op, k));
    }
  }

  /** A crash at any point of a history leaves a history, with a prefix of its committed groups. */
  lemma PastCrash(c: Config, sb: Super, base: Disk, run: seq<State>, done: seq<seq<FileOp>>, n: nat, t: State)
    requires Past(c, sb, base, run, done) && CrashPoint(c, run, n, t)
    ensures |t.groups| <= |done| && Past(c, sb, base, run[..n + 1] + [t], done[..|t.groups|]) && !t.up
  {
    hide LogApart, Sound, GroupsDo, Next, NextStep, CrashPoint;
    CrashGroups(c, base, run, n, t);
    RunPrefix(c, base, run, n);
    RunMore(c, base, run[..n + 1], t);
    GroupsCount(c, sb, base, run[|run| - 1].groups, done);
    GroupsPrefix(c, sb, base, run[|run| - 1].groups, done, |t.groups|);
    assert run[|run| - 1].groups[..|t.groups|] == t.groups;
  }

  lemma GroupsCount(c: Config, sb: Super, base: Disk, gs: seq<Group>, done: seq<seq<FileOp>>)
    requires GroupsDo(c, sb, base, gs, done)
    ensures |done| == |gs|
  {
  }

  lemma RunPrefix(c: Config, base: Disk, run: seq<State>, n: nat)
    requires Run(c, base, run) && n < |run|
    ensures Run(c, base, run[..n + 1])
  {
    hide Next;
    var run' := run[..n + 1];
    forall i | 0 <= i < n ensures Next(c, run'[i], run'[i + 1]) {
      assert Next(c, run[i], run[i + 1]);
    }
  }

  /** So does a crash after k writes of a recovery. */
  lemma PastRecoveryCut(c: Config, sb: Super, base: Disk, run: seq<State>, done: seq<seq<FileOp>>, t: State, k: nat)
    requires Past(c, sb, base, run, done) && NextStep(c, run[|run| - 1], t, Step.CrashInRecovery(k))
    ensures Past(c, sb, base, run + [t], done) && !t.up
  {
    hide LogApart, Sound, GroupsDo, RecoverState, GoodDisk;
    assert Next(c, run[|run| - 1], t);
    PastMore(c, sb, base, run, done, t);
  }

  /**
   * In every state of every history: recovery makes of the disk a sound file system, whose files are those
   * that the writes of the groups committed by then make, in order, of the files at the start.
   */
  lemma HistoryFiles(c: Config, sb: Super, base: Disk, run: seq<State>, done: seq<seq<FileOp>>, n: nat)
    requires Past(c, sb, base, run, done) && n < |run|
    ensures var s := run[n];
            && GoodDisk(c, s.disk) && Sound(sb, Recovered(c, s.disk)) && s.acked <= |s.groups| <= |done|
            && Files(sb, Recovered(c, s.disk)) == PerformGroups(Files(sb, base), done[..|s.groups|])
  {
    hide LogApart, Sound, Files, GroupsDo, Run, GoodDisk, Recovered;
    var all := run[|run| - 1].groups;
    CrashSafety.NoGroupLost(c, base, run, n, |run| - 1);
    GroupsCount(c, sb, base, all, done);
    GroupsPrefix(c, sb, base, all, done, |run[n].groups|);
    assert all[..|run[n].groups|] == run[n].groups;
    CrashSafety.CrashAtomicity(c, base, run, n);
    FilesSurviveCrashes(c, sb, base, run, n, done[..|run[n].groups|]);
  }

  /**
   * Crash safety of the files.  After a crash at any point, recovery gives a sound file system whose files
   * hold the writes of a prefix of the groups, each whole, and no group whose end_op() had returned is missing.
   */
  lemma CrashedFiles(c: Config, sb: Super, base: Disk, run: seq<State>, done: seq<seq<FileOp>>, n: nat, t: State)
    requires Past(c, sb, base, run, done) && CrashPoint(c, run, n, t)
    ensures GoodDisk(c, t.disk) && Sound(sb, Recovered(c, t.disk)) && n < |run| && run[n].acked <= |t.groups| <= |done|
    ensures Files(sb, Recovered(c, t.disk)) == PerformGroups(Files(sb, base), done[..|t.groups|])
  {
    hide LogApart, Sound, Files, GroupsDo, GoodDisk, Recovered, Next, NextStep, CrashPoint;
    PastCrash(c, sb, base, run, done, n, t);
    CrashGroups(c, base, run, n, t);
    var run' := run[..n + 1] + [t];
    HistoryFiles(c, sb, base, run', done[..|t.groups|], n + 1);
    CrashSafety.NoGroupLost(c, base, run', n, n + 1);
    assert done[..|t.groups|][..|t.groups|] == done[..|t.groups|];
  }

  /**
   * While the system runs, the files that fs.c sees, which are those that bread() shows, hold the writes of
   * the committed groups and of the open one.
   */
  lemma ShownFiles(c: Config, sb: Super, base: Disk, run: seq<State>, done: seq<seq<FileOp>>, d: Disk,
                   open: seq<FileOp>)
    requires Past(c, sb, base, run, done) && Shows(c, sb, base, run[|run| - 1], d, open)
    ensures Sound(sb, d) && Files(sb, d) == PerformAll(PerformGroups(Files(sb, base), done), open)
    ensures var s := run[|run| - 1];
            s.up ==> Sound(sb, View(s.disk, s.cache)) && Files(sb, View(s.disk, s.cache)) == Files(sb, d)
  {
    hide LogApart, Sound, Files, GroupsDo, Does, SameHome, PerformAll, View;
    var gs := run[|run| - 1].groups;
    var h := Effect(base, gs);
    var h' := Apply(h, run[|run| - 1].cur.writes);
    GroupsEffect(c, sb, base, gs, done);
    DoesEffect(c, sb, h, h', open);
    SameHomeBack(c, d, h');
    HomeDecides(c, sb, h', d);
    if run[|run| - 1].up {
      FilesWhileRunning(c, sb, base, run, |run| - 1, done, open);
    }
  }

  lemma SameHomeBack(c: Config, d: Disk, e: Disk)
    requires SameHome(c, d, e)
    ensures SameHome(c, e, d)
  {
  }

  /** The history of a disk that mkfs has made: no group yet. */
  function FirstRun(base: Disk): seq<State> {
    var s := State(true, base, map[], [], map[], NO_GROUP, [], 0, map[]);
    [s, Down(s)]
  }

  lemma FreshDisk(c: Config, sb: Super, base: Disk)
    requires LogApart(c, sb) && Sound(sb, base) && EmptyLog(c, base)
    ensures Past(c, sb, base, FirstRun(base), [])
  {
    hide LogApart, Sound, EmptyLog, CommitState, CommitReady, Recovered, RecoverState, GoodDisk;
    var run := FirstRun(base);
    assert NextStep(c, run[0], run[1], Step.Crash);
    assert Next(c, run[0], run[0 + 1]);
  }

  // ---- the running system ----

  lemma BootFiles(c: Config, sb: Super, base: Disk, run: seq<State>, done: seq<seq<FileOp>>)
    requires Past(c, sb, base, run, done) && !run[|run| - 1].up
    ensures |run| > 0 && Inv(c, base, run[|run| - 1]) && GoodDisk(c, run[|run| - 1].disk)
    ensures Sound(sb, Recovered(c, run[|run| - 1].disk))
  {
    hide LogApart, Sound, Files, GroupsDo, Inv, GoodDisk, Recovered;
    CrashSafety.RunInv(c, base, run, |run| - 1);
    HistoryFiles(c, sb, base, run, done, |run| - 1);
  }

  lemma Booted(c: Config, sb: Super, base: Disk, run: seq<State>, done: seq<seq<FileOp>>, t: State)
    requires Past(c, sb, base, run, done) && NextStep(c, run[|run| - 1], t, Step.Recover) && Inv(c, base, t)
    requires run[|run| - 1] == Down(run[|run| - 1])
    ensures Past(c, sb, base, run + [t], done) && Shows(c, sb, base, t, t.disk, [])
    ensures t.ops == map[] && t.lh == [] && t.did == run[|run| - 1].did
  {
    hide LogApart, Sound, GroupsDo, Does, Recovered, GoodDisk;
    assert Next(c, run[|run| - 1], t);
    PastMore(c, sb, base, run, done, t);
    DoesNothing(c, sb, Effect(base, t.groups));
  }

  lemma DownAlready(c: Config, base: Disk, s: State)
    requires Inv(c, base, s) && !s.up
    ensures s == Down(s)
  {
  }

  /** A log write keeps the committed groups and appends to the open one. */
  lemma LogWriteEffect(c: Config, s: State, t: State, w: Write)
    requires NextStep(c, s, t, Step.LogWrite(w.op, w.block, w.data)) && w.op in s.ops
    ensures t.groups == s.groups && t.cur.writes == s.cur.writes + [w] && t.did.Keys == s.did.Keys
    ensures t.lh == (if w.block in s.lh then s.lh else s.lh + [w.block])
    ensures t.ops == if w.block in s.lh then s.ops else s.ops[w.op := s.ops[w.op] + 1]
    ensures Next(c, s, t)
  {
    hide CommitState, CommitReady, Recovered, RecoverState, GoodDisk, Home;
  }

  /** After k calls the operation has counted n blocks and lh0 has become lh. */
  ghost predicate Counted(calls: seq<LogCall>, k: nat, lh0: seq<nat>, lh: seq<nat>, n: nat) {
    && k <= |calls|
    && (forall b | b in CallBlocks(calls[..k]) :: b in lh)
    && n <= |CallBlocks(calls[..k])| <= |CallBlocks(calls)| && |lh| <= |lh0| + |CallBlocks(calls[..k])|
  }

  lemma CountedNone(calls: seq<LogCall>, lh: seq<nat>)
    ensures Counted(calls, 0, lh, lh, 0)
  {
  }

  /** The next call is within the budget. */
  lemma CountedMore(calls: seq<LogCall>, k: nat, lh0: seq<nat>, lh: seq<nat>, n: nat)
    requires Counted(calls, k, lh0, lh, n) && k < |calls|
    ensures var b := calls[k].block;
            && (b in lh || n < |CallBlocks(calls)|)
            && Counted(calls, k + 1, lh0, if b in lh then lh else lh + [b], if b in lh then n else n + 1)
  {
    hide CallBlocks;
    var b := calls[k].block;
    CallsStep(0, calls, k);
    CallsPrefix(calls, k + 1);
    SmallerSet(CallBlocks(calls[..k]), CallBlocks(calls[..k + 1]));
    if b !in lh {
      assert b !in CallBlocks(calls[..k]);
    }
  }

  /** A completed write, with its calls logged, is one more write of the open group. */
  lemma WriteShows(c: Config, sb: Super, base: Disk, s: State, t: State, d: Disk, calls: seq<LogCall>, op: OpId,
                   open: seq<FileOp>, w: FileOp)
    requires Shows(c, sb, base, s, d, open) && Writes(sb, d, Replay(d, calls), w)
    requires t.groups == s.groups && t.cur.writes == s.cur.writes + WritesBy(op, calls)
    ensures Shows(c, sb, base, t, Replay(d, calls), open + [w])
  {
    hide Does, Writes, SameHome, Replay, Apply, WritesBy;
    var h := Effect(base, s.groups);
    var m := Apply(h, s.cur.writes);
    var h' := Apply(h, t.cur.writes);
    ApplyCalls(h, s.cur.writes, op, calls);
    ReplaySameHome(c, d, m, calls);
    assert HomeWrites(c, sb, m, h', w);
    DoesMore(c, sb, h, m, h', open, w);
  }

  /** initlog(), and the inode table read into memory. */
  method Boot(c: Config, sb: Super, disk: Disk, ghost base: Disk, ghost run: seq<State>, ghost done: seq<seq<FileOp>>)
      returns (log: Log, fs: Fs)
    requires Past(c, sb, base, run, done) && !run[|run| - 1].up && run[|run| - 1].disk == disk
    ensures fresh(log) && log.Valid() && !log.committing && log.c == c && log.base == base && log.st.ops == map[]
    ensures fresh(fs) && fs.Valid() && fs.sb == sb && fs.d == log.disk
    ensures Sound(sb, fs.d) && fs.inodes == Table(sb, fs.d)
    ensures Past(c, sb, base, run + [log.st], done) && Shows(c, sb, base, log.st, fs.d, [])
    ensures log.lh == [] && log.st.did == run[|run| - 1].did
  {
    hide Shows, Sound, Inv, NextStep, FsInv, Traced, Inside, Recovered, Table, LogApart, Run, GroupsDo;
    BootFiles(c, sb, base, run, done);
    log := new Log(c, disk, base, run[|run| - 1]);
    DownAlready(c, base, run[|run| - 1]);
    log.RecoverFromLog();
    Booted(c, sb, base, run, done, log.st);
    RecoveredDisk(c, run[|run| - 1], log.st);
    SoundShape(sb, log.disk);
    fs := new Fs(sb, log.disk, Table(sb, log.disk), SomeOwner(sb, log.disk));
  }

  /** Running file system: fs.c over what bread() shows, log.c under it, and the history of both. */
  class FileSystem {
    const c: Config
    const sb: Super
    const log: Log
    const fs: Fs
    ghost const base: Disk
    ghost var run: seq<State>
    ghost var done: seq<seq<FileOp>>    // the file writes of each committed group
    ghost var open: seq<FileOp>         // the file writes of the open group

    /** Holds at every moment, also in the middle of a write and after a panic. */
    ghost predicate History()
      reads this, log
    {
      && log.c == c && log.base == base && Past(c, sb, base, run, done) && run[|run| - 1] == log.st
      && log.Valid() && !log.committing
    }

    /** Holds between the operations. */
    ghost predicate Valid()
      reads this, log, fs
    {
      && History() && fs.Valid() && fs.sb == sb && Sound(sb, fs.d) && fs.inodes == Table(sb, fs.d)
      && Shows(c, sb, base, log.st, fs.d, open)
    }

    /** No operation is outstanding. */
    ghost predicate Idle()
      reads this, log
    {
      log.st.ops == map[] && log.lh == [] && open == []
    }

    /** Starting from the disk that a crash, or a crash in a recovery, has left: initlog() recovers. */
    constructor (c: Config, sb: Super, disk: Disk, ghost base: Disk, ghost run: seq<State>,
                 ghost done: seq<seq<FileOp>>)
      requires Past(c, sb, base, run, done) && !run[|run| - 1].up && run[|run| - 1].disk == disk
      ensures Valid() && fresh(log) && fresh(fs)
      ensures this.c == c && this.sb == sb && this.base == base && this.run == run + [log.st]
      ensures this.done == done && Idle() && log.st.did == run[|run| - 1].did
    {
      hide Past, Shows, Sound, Inv, FsInv, Traced, Inside, Table;
      var l, f := Boot(c, sb, disk, base, run, done);
      this.c, this.sb, log, fs := c, sb, l, f;
      this.base, this.run, this.done, open := base, run + [l.st], done, [];
    }

    /** One pass of begin_op()'s loop. */
    method Begin(ghost op: OpId) returns (admitted: bool)
      requires Valid() && op !in log.st.did
      modifies log`outstanding, log`st, this`run
      ensures Valid() && done == old(done) && open == old(open) && log.lh == old(log.lh)
      ensures admitted <==> Admits(log.lh, |old(log.st).ops|)
      ensures admitted ==> run == old(run) + [log.st] && Joined(old(log.st), log.st, op)
      ensures !admitted ==> run == old(run) && log.st == old(log.st)
    {
      hide Past, Shows, Sound, Inv, Next, NextStep, FsInv, Traced, Inside, Table, Admits, Joined;
      admitted := log.BeginOp(op);
      if !admitted {
        return;
      }
      BeginShows(c, sb, base, old(log.st), log.st, op, fs.d, open);
      PastMore(c, sb, base, run, done, log.st);
      run := run + [log.st];
    }

    /** One call of log_write(), within the budget of op. */
    method LogOne(ghost op: OpId, b: nat, data: Block) returns (ok: bool)
      requires History() && Home(c, b) && op in log.st.ops && (b in log.lh || log.st.ops[op] < MAXOPBLOCKS)
      modifies log`lh, log`cache, log`st, this`run
      ensures History() && old(run) <= run && log.st.groups == old(log.st).groups && op in log.st.ops
      ensures ok ==>
                && log.lh == (if b in old(log.lh) then old(log.lh) else old(log.lh) + [b])
                && log.st.ops == (if b in old(log.lh) then old(log.st).ops
                                  else old(log.st).ops[op := old(log.st).ops[op] + 1])
                && log.st.cur.writes == old(log.st).cur.writes + [CrashMachine.Write(op, b, data)]
      ensures !ok ==> log.lh == old(log.lh) && log.st == old(log.st) && (|log.lh| >= LOGSIZE || |log.lh| >= c.size - 1)
    {
      hide Past, Inv, Next, NextStep, Home;
      var r := log.LogWrite(op, b, data);
      ok := r == Logged;
      if ok {
        LogWriteEffect(c, old(log.st), log.st, CrashMachine.Write(op, b, data));
        PastMore(c, sb, base, run, done, log.st);
        run := run + [log.st];
      }
    }

    /** The calls of log_write() that a write has made, on the log; false where one of them panics. */
    method LogAll(ghost op: OpId) returns (ok: bool)
      requires History() && op in log.st.ops && log.st.ops[op] == 0
      requires fs.sb == sb && fs.Recorded() && Inside(sb, fs.logged) && |fs.logged| <= MAXOPBLOCKS
      modifies log`lh, log`cache, log`st, this`run
      ensures History() && old(run) <= run && log.st.groups == old(log.st).groups
      ensures OthersKept(old(log.st).ops, log.st.ops, op)
      ensures ok ==> log.st.cur.writes == old(log.st).cur.writes + WritesBy(op, fs.calls)
      ensures |log.lh| <= |old(log.lh)| + MAXOPBLOCKS
      ensures !ok ==> |log.lh| >= LOGSIZE || |log.lh| >= c.size - 1
      ensures RoomFor(old(log.lh), c) ==> ok
    {
      hide Past, Inv, NextStep, Home, Inside, CallBlocks, Counted, WritesBy, LogApart, OthersKept;
      OthersStart(log.st.ops, op);
      CountedNone(fs.calls, log.lh);
      NoWrites(op, fs.calls, log.st.cur.writes);
      var k := 0;
      while k < |fs.calls|
        invariant k <= |fs.calls| && History() && old(run) <= run && log.st.groups == old(log.st).groups
        invariant OthersKept(old(log.st).ops, log.st.ops, op) && op in log.st.ops
        invariant log.st.cur.writes == old(log.st).cur.writes + WritesBy(op, fs.calls[..k])
        invariant Counted(fs.calls, k, old(log.lh), log.lh, log.st.ops[op])
      {
        ghost var ops := log.st.ops;
        CallHome(c, sb, base, run, done, fs.calls, k);
        CountedMore(fs.calls, k, old(log.lh), log.lh, log.st.ops[op]);
        CallsStep(op, fs.calls, k);
        ok := LogOne(op, fs.calls[k].block, fs.calls[k].data);
        if !ok {
          CountedSpace(fs.calls, k, old(log.lh), log.lh, log.st.ops[op]);
          return;
        }
        OthersStep(old(log.st).ops, ops, log.st.ops, op);
        Append(old(log.st).cur.writes, WritesBy(op, fs.calls[..k]),
               CrashMachine.Write(op, fs.calls[k].block, fs.calls[k].data));
        k := k + 1;
      }
      assert fs.calls[..k] == fs.calls;
      CountedSpace(fs.calls, k, old(log.lh), log.lh, log.st.ops[op]);
      ok := true;
    }

    /** writei() of a chunk in the transaction op, which has logged nothing yet: what filewrite() does in each. */
    method Write(ghost op: OpId, i: nat, src: seq<Byte>, off: nat) returns (r: IoResult)
      requires Valid() && op in log.st.ops && log.st.ops[op] == 0 && i in fs.inodes
      requires off < WORD_LIMIT && |src| <= MAXWRITE
      modifies log, fs, this`run, this`open
      ensures History() && old(run) <= run && log.st.groups == old(log.st).groups
      ensures OthersKept(old(log.st).ops, log.st.ops, op)
      ensures r.Count? ==> Valid() && r.n == |src| && open == old(open) + [WriteOp(i, off, src)]
      ensures r == Fail || r == Device ==> Valid() && open == old(open) && log.st == old(log.st) && run == old(run)
      ensures r == Device <==> old(fs.IsDevice(i))
      ensures r == Fail <==>
                !old(fs.IsDevice(i)) && (off > old(fs.inodes)[i].size || off + |src| > MAXFILE * BSIZE)
      ensures |log.lh| <= |old(log.lh)| + MAXOPBLOCKS
      ensures r == Panic ==> DiskFull(sb, fs.d) || |log.lh| >= LOGSIZE || |log.lh| >= c.size - 1
      ensures RoomFor(old(log.lh), c) ==>
                && (r == Panic <==> !old(fs.IsDevice(i)) && NoRoom(sb, old(fs.d), old(fs.inodes)[i], off, |src|))
                && (r == Panic ==> DiskFull(sb, fs.d))
    {
      hide Past, Shows, Inv, Sound, Writes, FsInv, Inside, DIno, NoRoom, DiskFull, Replay, CallBlocks, Table,
           OthersKept;
      OthersStart(log.st.ops, op);
      fs.Begin();
      r := WriteFile(fs, i, src, off);
      if !r.Count? {
        return;
      }
      WriteEffect(sb, old(fs.d), fs.d, WriteOp(i, off, src));
      var ok := LogAll(op);
      if !ok {
        return Panic;
      }
      WriteShows(c, sb, base, old(log.st), log.st, old(fs.d), fs.calls, op, open, WriteOp(i, off, src));
      open := open + [WriteOp(i, off, src)];
    }

    /** itrunc() in the transaction op, which has logged nothing yet; false where log_write() panics. */
    method Truncate(ghost op: OpId, i: nat) returns (ok: bool)
      requires Valid() && op in log.st.ops && log.st.ops[op] == 0 && i in fs.inodes && sb.size < 9 * BPB
      modifies log, fs, this`run, this`open
      ensures History() && old(run) <= run && log.st.groups == old(log.st).groups
      ensures OthersKept(old(log.st).ops, log.st.ops, op)
      ensures ok ==> Valid() && open == old(open) + [TruncOp(i)]
      ensures |log.lh| <= |old(log.lh)| + MAXOPBLOCKS
      ensures !ok ==> |log.lh| >= LOGSIZE || |log.lh| >= c.size - 1
      ensures RoomFor(old(log.lh), c) ==> ok
    {
      hide Past, Shows, Inv, Sound, Writes, FsInv, Inside, DIno, Replay, CallBlocks, Table, OthersKept;
      fs.Begin();
      TruncFile(fs, i);
      WriteEffect(sb, old(fs.d), fs.d, TruncOp(i));
      ok := LogAll(op);
      if ok {
        WriteShows(c, sb, base, old(log.st), log.st, old(fs.d), fs.calls, op, open, TruncOp(i));
        open := open + [TruncOp(i)];
      }
    }

    /** end_op(): the last operation out commits, and then its writes and those of its group are durable. */
    method End(ghost op: OpId)
      requires Valid() && op in log.st.ops
      modifies log, this`run, this`done, this`open
      ensures Valid() && run == old(run) + [log.st]
      ensures |old(log.st).ops| == 1 ==> done == old(done) + [old(open)] && Idle() && log.st.acked == |done|
      ensures |old(log.st).ops| > 1 ==> done == old(done) && open == old(open) && log.st.ops == old(log.st).ops - {op}
    {
      hide Past, Shows, Inv, Sound, FsInv, Traced, Inside, Next, NextStep, CommitTrace, Table;
      assert |log.st.ops| >= 1;
      log.EndOp(op);
      if |old(log.st).ops| == 1 {
        PastCommit(c, sb, base, run, done, log.st, op, fs.d, open);
        done, open := done + [open], [];
      } else {
        EndShows(c, sb, base, old(log.st), log.st, op, fs.d, open);
        PastMore(c, sb, base, run, done, log.st);
      }
      run := run + [log.st];
    }

    /** A transaction on its own: begin_op(), writei(), end_op(). */
    method WriteAlone(ghost op: OpId, i: nat, src: seq<Byte>, off: nat) returns (r: IoResult)
      requires Valid() && Idle() && op !in log.st.did && i in fs.inodes && c.size > MAXOPBLOCKS + 1
      requires off < WORD_LIMIT && |src| <= MAXWRITE
      modifies log, fs, this`run, this`open, this`done
      ensures History() && old(run) <= run
      ensures r != Panic ==>
                Valid() && Idle() && log.st.acked == |done| && done == old(done) + [Did(r, i, src, off)]
      ensures r == Panic <==> !old(fs.IsDevice(i)) && NoRoom(sb, old(fs.d), old(fs.inodes)[i], off, |src|)
      ensures r == Panic ==> done == old(done) && DiskFull(sb, fs.d)
    {
      hide Past, Shows, Inv, Sound, FsInv, Traced, Inside, Table, DiskFull, NoRoom, OthersKept, Joined, Admits;
      AdmitsTwo();
      ghost var s := log.st;
      var _ := Begin(op);
      OneJoined(s, log.st, op);
      ghost var ops := log.st.ops;
      r := Write(op, i, src, off);
      if r != Panic {
        OneKept(ops, log.st.ops, op);
        assert open == Did(r, i, src, off);
        End(op);
      }
    }

    /** A truncation on its own. */
    method TruncateAlone(ghost op: OpId, i: nat)
      requires Valid() && Idle() && op !in log.st.did && i in fs.inodes && c.size > MAXOPBLOCKS + 1 && sb.size < 9 * BPB
      modifies log, fs, this`run, this`open, this`done
      ensures Valid() && Idle() && old(run) <= run && done == old(done) + [[TruncOp(i)]] && log.st.acked == |done|
    {
      hide Past, Shows, Inv, Sound, FsInv, Traced, Inside, Table, OthersKept, Joined, Admits;
      AdmitsTwo();
      ghost var s := log.st;
      var _ := Begin(op);
      OneJoined(s, log.st, op);
      ghost var ops := log.st.ops;
      var _ := Truncate(op, i);
      OneKept(ops, log.st.ops, op);
      assert open == [TruncOp(i)];
      End(op);
    }

    /** Two operations are outstanding and neither has written. */
    method BeginBoth(ghost op1: OpId, ghost op2: OpId)
      requires Valid() && Idle() && op1 !in log.st.did && op2 !in log.st.did && op1 != op2
      modifies log`outstanding, log`st, this`run
      ensures Valid() && old(run) <= run && done == old(done) && open == [] && log.lh == []
      ensures log.st.ops.Keys == {op1, op2} && log.st.ops[op1] == log.st.ops[op2] == 0
    {
      hide Past, Shows, Inv, Sound, FsInv, Traced, Inside, Table, Joined, Admits;
      AdmitsTwo();
      ghost var s := log.st;
      var _ := Begin(op1);
      OneJoined(s, log.st, op1);
      ghost var s1 := log.st;
      var _ := Begin(op2);
      BothJoined(s, s1, log.st, op1, op2);
    }

    method EndBoth(ghost op1: OpId, ghost op2: OpId)
      requires Valid() && op1 != op2 && log.st.ops.Keys == {op1, op2}
      modifies log, this`run, this`done, this`open
      ensures Valid() && Idle() && old(run) <= run && done == old(done) + [old(open)] && log.st.acked == |done|
    {
      hide Past, Shows, Inv, Sound, FsInv, Traced, Inside, Table;
      TwoOperations(log.st.ops, op1, op2);
      End(op1);
      OneOperation(log.st.ops, op2);
      End(op2);
    }

    /** Two transactions that overlap: both begin, both write, both end, and one commit makes both durable. */
    method WriteBoth(ghost op1: OpId, ghost op2: OpId, i1: nat, src1: seq<Byte>, off1: nat,
                     i2: nat, src2: seq<Byte>, off2: nat)
        returns (r1: IoResult, r2: IoResult)
      requires Valid() && Idle() && op1 !in log.st.did && op2 !in log.st.did && op1 != op2
      requires i1 < sb.ninodes && i2 < sb.ninodes
      requires off1 < WORD_LIMIT && |src1| <= MAXWRITE && off2 < WORD_LIMIT && |src2| <= MAXWRITE
      modifies log, fs, this`run, this`open, this`done
      ensures History() && old(run) <= run
      ensures r1 == Panic || r2 == Panic ==> done == old(done)
      ensures c.size > 2 * MAXOPBLOCKS + 1 && (r1 == Panic || r2 == Panic) ==> DiskFull(sb, fs.d)
      ensures r1 != Panic && r2 != Panic ==>
                && Valid() && Idle() && log.st.acked == |done|
                && done == old(done) + [Did(r1, i1, src1, off1) + Did(r2, i2, src2, off2)]
    {
      hide Past, Shows, Inv, Sound, FsInv, Traced, Inside, Table, DiskFull, NoRoom, OthersKept;
      BeginBoth(op1, op2);
      ghost var ops := log.st.ops;
      TableKeys(sb, fs.d);
      r2 := Panic;
      r1 := Write(op1, i1, src1, off1);
      if r1 == Panic {
        return;
      }
      OtherAt(ops, log.st.ops, op1, op2);
      TableKeys(sb, fs.d);
      ghost var ops1 := log.st.ops;
      r2 := Write(op2, i2, src2, off2);
      if r2 == Panic {
        return;
      }
      OtherAt(ops1, log.st.ops, op2, op1);
      assert open == Did(r1, i1, src1, off1) + Did(r2, i2, src2, off2);
      EndBoth(op1, op2);
    }
  }

  /** The file write that a writei() with this result has done, if any. */
  ghost function Did(r: IoResult, i: nat, src: seq<Byte>, off: nat): seq<FileOp> {
    if r.Count? then [WriteOp(i, off, src)] else []
  }

  /** The log has room for a whole budget more. */
  ghost predicate RoomFor(lh: seq<nat>, c: Config) { |lh| + MAXOPBLOCKS < LOGSIZE && |lh| + MAXOPBLOCKS < c.size - 1 }

  /** Only op may have counted more blocks. */
  ghost predicate OthersKept(ops: map<OpId, nat>, ops': map<OpId, nat>, op: OpId) {
    ops'.Keys == ops.Keys && forall o | o in ops && o != op :: ops'[o] == ops[o]
  }

  lemma OthersStart(ops: map<OpId, nat>, op: OpId)
    ensures OthersKept(ops, ops, op)
  {
  }

  lemma OthersStep(ops: map<OpId, nat>, ops1: map<OpId, nat>, ops2: map<OpId, nat>, op: OpId)
    requires OthersKept(ops, ops1, op) && op in ops1 && (ops2 == ops1 || ops2 == ops1[op := ops1[op] + 1])
    ensures OthersKept(ops, ops2, op) && op in ops2
  {
  }

  lemma NoWrites(op: OpId, calls: seq<LogCall>, ws: seq<Write>)
    ensures ws == ws + WritesBy(op, calls[..0])
  {
  }

  /** Blocks that fs.c logs have a home location. */
  lemma CallHome(c: Config, sb: Super, base: Disk, run: seq<State>, done: seq<seq<FileOp>>, calls: seq<LogCall>, k: nat)
    requires Past(c, sb, base, run, done) && k < |calls| && Inside(sb, CallBlocks(calls))
    ensures Home(c, calls[k].block)
  {
    hide Sound, GroupsDo, Inside, CallBlocks;
    CallInside(sb, calls, k);
  }

  /** With room for a whole budget at the start, the log is never full. */
  lemma CountedSpace(calls: seq<LogCall>, k: nat, lh0: seq<nat>, lh: seq<nat>, n: nat)
    requires Counted(calls, k, lh0, lh, n) && |CallBlocks(calls)| <= MAXOPBLOCKS
    ensures |lh| <= |lh0| + MAXOPBLOCKS
  {
  }

  lemma EndShows(c: Config, sb: Super, base: Disk, s: State, t: State, op: OpId, d: Disk, open: seq<FileOp>)
    requires NextStep(c, s, t, Step.End(op)) && Shows(c, sb, base, s, d, open)
    ensures Shows(c, sb, base, t, d, open) && Next(c, s, t) && t.groups == s.groups && t.ops == s.ops - {op}
  {
    hide CommitState, CommitReady, Recovered, RecoverState, GoodDisk, Does;
  }

  /** Operation op is new and has counted nothing. */
  ghost predicate Joined(s: State, t: State, op: OpId) { t.ops == s.ops[op := 0] && t.did.Keys == s.did.Keys + {op} }

  lemma BeginShows(c: Config, sb: Super, base: Disk, s: State, t: State, op: OpId, d: Disk, open: seq<FileOp>)
    requires NextStep(c, s, t, Step.Begin(op)) && Shows(c, sb, base, s, d, open)
    ensures Shows(c, sb, base, t, d, open) && Next(c, s, t) && t.groups == s.groups && Joined(s, t, op)
  {
    hide CommitState, CommitReady, Recovered, RecoverState, GoodDisk, Does;
  }

  lemma RecoveredDisk(c: Config, s: State, t: State)
    requires NextStep(c, s, t, Step.Recover)
    ensures t.disk == Recovered(c, s.disk)
  {
    hide CommitState, CommitReady, Recovered, RecoverState, GoodDisk;
  }

  ghost function SomeOwner(sb: Super, d: Disk): (owner: map<nat, Owner>)
    requires Sound(sb, d)
    ensures FsInv(sb, d, Table(sb, d), owner)
  {
    var owner :| FsInv(sb, d, Table(sb, d), owner);
    owner
  }

  lemma SoundShape(sb: Super, d: Disk)
    requires Sound(sb, d)
    ensures ValidDisk(sb, d)
  {
  }

  lemma TableKeys(sb: Super, d: Disk)
    requires Sound(sb, d)
    ensures ValidDisk(sb, d) && forall i: nat :: i in Table(sb, d) <==> i < sb.ninodes
  {
  }

  lemma AdmitsTwo()
    ensures Admits([], 0) && Admits([], 1)
  {
  }

  lemma OneJoined(s: State, t: State, op: OpId)
    requires Joined(s, t, op) && s.ops == map[]
    ensures t.ops == map[op := 0] && |t.ops| == 1 && forall o | o !in s.did && o != op :: o !in t.did
  {
    OneOperation(t.ops, op);
  }

  lemma BothJoined(s: State, s1: State, t: State, op1: OpId, op2: OpId)
    requires Joined(s, s1, op1) && Joined(s1, t, op2) && s.ops == map[] && op1 != op2
    ensures t.ops.Keys == {op1, op2} && t.ops[op1] == t.ops[op2] == 0
  {
  }

  lemma OneKept(ops: map<OpId, nat>, ops': map<OpId, nat>, op: OpId)
    requires OthersKept(ops, ops', op) && ops == map[op := 0]
    ensures |ops'| == 1 && op in ops'
  {
    OneOperation(ops', op);
  }

  lemma OtherAt(ops: map<OpId, nat>, ops': map<OpId, nat>, op1: OpId, op2: OpId)
    requires OthersKept(ops, ops', op1) && op1 != op2 && ops.Keys == {op1, op2}
    ensures ops'.Keys == {op1, op2} && ops'[op2] == ops[op2]
  {
  }

  lemma TwoOperations(ops: map<OpId, nat>, op1: OpId, op2: OpId)
    requires op1 != op2 && ops.Keys == {op1, op2}
    ensures |ops| == 2 && (ops - {op1}).Keys == {op2}
  {
    assert |ops| == |ops.Keys|;
  }

  lemma OneOperation(ops: map<OpId, nat>, op: OpId)
    requires ops.Keys == {op}
    ensures |ops| == 1
  {
    assert |ops| == |ops.Keys|;
  }

  /** Boot a disk that mkfs has made and write to a file. */
  method WriteOnce(c: Config, sb: Super, base: Disk, i: nat, src: seq<Byte>, off: nat)
      returns (sys: FileSystem, r: IoResult)
    requires LogApart(c, sb) && Sound(sb, base) && EmptyLog(c, base) && c.size > MAXOPBLOCKS + 1
    requires i < sb.ninodes && off < WORD_LIMIT && |src| <= MAXWRITE
    ensures sys.History() && sys.c == c && sys.sb == sb && sys.base == base
    ensures r.Count? ==> sys.Valid() && sys.Idle() && sys.done == [[WriteOp(i, off, src)]] && sys.log.st.acked == 1
    ensures r == Panic ==> sys.done == []
  {
    hide LogApart, Sound, EmptyLog, Past, Shows, Inv, FsInv, Traced, Inside;
    FreshDisk(c, sb, base);
    sys := new FileSystem(c, sb, base, base, FirstRun(base), []);
    r := sys.WriteAlone(0, i, src, off);
  }

  // ---- a disk to start from ----

  const SMALL_LOG := Config(2, 12, 17)
  const SMALL_FS := Super(17, 1, 14, 15)

  /** A disk with an empty log of 12 blocks, one inode without blocks, and one free data block. */
  function SmallDisk(): (d: Disk)
    ensures |d| == 17 && d[15] == ZeroBlock()[0 := 255][1 := 255]
    ensures forall b: nat | b < 17 && b != 15 :: d[b] == ZeroBlock()
  {
    ZeroBlocks(15) + [ZeroBlock()[0 := 255][1 := 255], ZeroBlock()]
  }

  function ZeroBlocks(n: nat): (d: Disk)
    ensures |d| == n && forall b | 0 <= b < n :: d[b] == ZeroBlock()
  {
    if n == 0 then [] else ZeroBlocks(n - 1) + [ZeroBlock()]
  }

  lemma {:induction false} AllOnes(n: nat, k: nat)
    requires k < n
    ensures Pow2(n) > 0 && BitOf(Pow2(n) - 1, k)
  {
    if n > 1 {
      AllOnes(n - 1, if k > 0 then k - 1 else 0);
      assert (Pow2(n) - 1) / 2 == Pow2(n - 1) - 1;
    }
  }

  lemma SmallBits(b: nat)
    requires b < 17
    ensures ValidDisk(SMALL_FS, SmallDisk()) && (Bit(SMALL_FS, SmallDisk(), b) <==> b < DataStart(SMALL_FS))
  {
    hide SmallDisk;
    assert BBlock(SMALL_FS, b) == 15 && b % BPB == b;
    assert Pow2(8) == 256;
    if b < 16 {
      AllOnes(8, b % 8);
    }
  }

  /** It meets what WriteOnce asks of its disk. */
  lemma SmallDiskReady()
    ensures LogApart(SMALL_LOG, SMALL_FS) && EmptyLog(SMALL_LOG, SmallDisk()) && Sound(SMALL_FS, SmallDisk())
    ensures SMALL_LOG.size > MAXOPBLOCKS + 1
  {
    hide SmallDisk, Word, Bit;
    var d := SmallDisk();
    forall i: nat | i < WORDS ensures Word(ZeroBlock(), i) == 0 {
      ZeroBlockWords(i);
    }
    var ino := DIno(SMALL_FS, d, 0);
    assert ino.size == 0 && forall k: nat | k < SLOTS :: Addr(d, ino, k) == 0;
    forall b: nat | b < 17 ensures Bit(SMALL_FS, d, b) <==> b < DataStart(SMALL_FS) {
      SmallBits(b);
    }
    assert FsInv(SMALL_FS, d, Table(SMALL_FS, d), map[]);
  }
}
