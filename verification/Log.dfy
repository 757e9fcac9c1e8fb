/**
 * log.c as a program: the in-memory log header, the pinned buffers, and the disk, changed by the
 * functions of log.c.  `writes` records the disk after every single-block write, which is where a
 * crash can strike; `st` is the CrashMachine state that the object is in.
 */
module LogProgram {
  import opened Blocks
  import opened RedoLog
  import opened CrashMachine
  import opened CrashSafety

  datatype LogWriteResult = Logged | PanicTooBig | PanicOutsideTransaction

  /** The disks that the first n writes of commit() go through. */
  ghost function CommitTrace(c: Config, d: Disk, lh: seq<nat>, vals: seq<Block>, n: nat): (r: seq<Disk>)
    requires ValidConfig(c) && |d| == c.blocks && Loggable(c, lh) && |vals| == |lh| && n <= CommitWrites(lh)
    ensures |r| == n
  {
    if n == 0 then [] else CommitTrace(c, d, lh, vals, n - 1) + [CommitState(c, d, lh, vals, n)]
  }

  /** The disks that the first n writes of recover_from_log() go through. */
  ghost function RecoverTrace(c: Config, d: Disk, n: nat): (r: seq<Disk>)
    requires GoodDisk(c, d) && n <= RecoverWrites(c, d)
    ensures |r| == n
  {
    if n == 0 then [] else RecoverTrace(c, d, n - 1) + [RecoverState(c, d, n)]
  }

  lemma {:induction false} RecoverTraceAt(c: Config, d: Disk, n: nat, k: nat)
    requires GoodDisk(c, d) && k < n <= RecoverWrites(c, d)
    ensures RecoverTrace(c, d, n)[k] == RecoverState(c, d, k + 1)
  {
    hide RecoverState, GoodDisk;
    if k < n - 1 { RecoverTraceAt(c, d, n - 1, k); }
  }

  ghost function FillTrace(c: Config, d: Disk, vals: seq<Block>, n: nat): (r: seq<Disk>)
    requires n <= |vals| && c.start + |vals| < |d|
    ensures |r| == n
  {
    if n == 0 then [] else FillTrace(c, d, vals, n - 1) + [LogFilled(c, d, vals, n)]
  }

  ghost function InstallTrace(c: Config, d: Disk, lh: seq<nat>, n: nat): (r: seq<Disk>)
    requires ValidConfig(c) && |d| == c.blocks && Loggable(c, lh) && n <= |lh|
    ensures |r| == n
  {
    if n == 0 then [] else InstallTrace(c, d, lh, n - 1) + [Installed(c, d, lh, n)]
  }

  /** The disk after write_log(), write_head(), install_trans() and the write that clears the header. */
  ghost function LastDisk(c: Config, d: Disk, lh: seq<nat>, vals: seq<Block>): Disk
    requires ValidConfig(c) && |d| == c.blocks && Loggable(c, lh) && |vals| == |lh|
  {
    HeadWritten(c, Installed(c, HeadWritten(c, LogFilled(c, d, vals, |lh|), lh), lh, |lh|), [])
  }

  /** The disks that those four go through. */
  ghost function WholeTrace(c: Config, d: Disk, lh: seq<nat>, vals: seq<Block>): seq<Disk>
    requires ValidConfig(c) && |d| == c.blocks && Loggable(c, lh) && |vals| == |lh|
  {
    var full := HeadWritten(c, LogFilled(c, d, vals, |lh|), lh);
    FillTrace(c, d, vals, |lh|) + [full] + InstallTrace(c, full, lh, |lh|) + [LastDisk(c, d, lh, vals)]
  }

  lemma InstallNone(c: Config, d: Disk, lh: seq<nat>)
    requires ValidConfig(c) && |d| == c.blocks && Loggable(c, lh)
    ensures InstallTrace(c, d, lh, 0) == [] && Installed(c, d, lh, 0) == d
  {
  }

  lemma {:induction false} InstallTraceAt(c: Config, d: Disk, lh: seq<nat>, n: nat, k: nat)
    requires ValidConfig(c) && |d| == c.blocks && Loggable(c, lh) && k < n <= |lh|
    ensures InstallTrace(c, d, lh, n)[k] == Installed(c, d, lh, k + 1)
  {
    hide Installed;
    if k < n - 1 { InstallTraceAt(c, d, lh, n - 1, k); }
  }

  lemma InstallStep(c: Config, d: Disk, lh: seq<nat>, n: nat)
    requires ValidConfig(c) && |d| == c.blocks && Loggable(c, lh) && n < |lh|
    ensures Installed(c, d, lh, n)[c.start + n + 1] == d[c.start + n + 1]
    ensures Installed(c, d, lh, n + 1) == Installed(c, d, lh, n)[lh[n] := d[c.start + n + 1]]
    ensures InstallTrace(c, d, lh, n + 1) == InstallTrace(c, d, lh, n) + [Installed(c, d, lh, n + 1)]
  {
    hide Home;
    InstalledLogUntouched(c, d, lh, n);
  }

  lemma CleanStep(cache: map<nat, Block>, lh: seq<nat>, n: nat)
    requires n < |lh|
    ensures var next := lh[..n + 1]; cache - (set b | b in lh[..n]) - {lh[n]} == cache - (set b | b in next)
  {
    assert lh[..n + 1] == lh[..n] + [lh[n]];
  }

  /** begin_op()'s test: the log has room for the budget of one more operation beside n outstanding ones. */
  predicate Admits(lh: seq<nat>, n: nat) { |lh| + (n + 1) * MAXOPBLOCKS <= LOGSIZE }

  class Log {
    const c: Config
    var disk: Disk
    var cache: map<nat, Block>   // buffers with B_DIRTY set
    var lh: seq<nat>             // log.lh.block[0..log.lh.n]
    var outstanding: nat
    var committing: bool
    ghost var writes: seq<Disk>
    ghost const base: Disk
    ghost var st: State
    ghost var closing: OpId

    ghost predicate Valid()
      reads this
    {
      && Inv(c, base, st) && st.up
      && disk == st.disk && cache == st.cache && lh == st.lh
      && (!committing ==> outstanding == |st.ops|)
      && (committing ==> outstanding == 0 && (st.ops.Keys == {closing} || st.ops == map[]))
    }

    ghost predicate Shape()
      reads this
    {
      ValidConfig(c) && |disk| == c.blocks && Loggable(c, lh) && forall b | b in cache :: Home(c, b)
    }

    /** bread(): a pinned buffer holds the latest contents, else the disk does. */
    function Bread(b: nat): Block
      requires b < |disk|
      reads this
    {
      if b in cache then cache[b] else disk[b]
    }

    /** bwrite(): one single-block write; the buffer is clean afterwards. */
    method Bwrite(b: nat, data: Block)
      requires b < |disk|
      modifies this`disk, this`cache, this`writes
      ensures disk == old(disk)[b := data] && cache == old(cache) - {b}
      ensures writes == old(writes) + [disk]
    {
      disk := disk[b := data];
      cache := cache - {b};
      writes := writes + [disk];
    }

    method WriteLog(ghost vals: seq<Block>)
      requires Shape() && |vals| == |lh|
      requires forall i | 0 <= i < |lh| :: vals[i] == Bread(lh[i])
      modifies this`disk, this`cache, this`writes
      ensures disk == LogFilled(c, old(disk), vals, |lh|) && cache == old(cache)
      ensures writes == old(writes) + FillTrace(c, old(disk), vals, |lh|)
    {
      var tail := 0;
      while tail < |lh|
        invariant tail <= |lh|
        invariant disk == LogFilled(c, old(disk), vals, tail) && cache == old(cache)
        invariant writes == old(writes) + FillTrace(c, old(disk), vals, tail)
      {
        Bwrite(c.start + tail + 1, Bread(lh[tail]));
        assert disk == LogFilled(c, old(disk), vals, tail + 1);
        assert cache == old(cache);
        tail := tail + 1;
      }
    }

    method WriteHead()
      requires Shape()
      modifies this`disk, this`cache, this`writes
      ensures disk == HeadWritten(c, old(disk), lh) && cache == old(cache)
      ensures writes == old(writes) + [disk]
    {
      hide Word, SetWord;
      var hb := SetWord(Bread(c.start), 0, |lh|);
      var i := 0;
      while i < |lh|
        invariant i <= |lh|
        invariant hb == PutHead(disk[c.start], lh, i)
      {
        hb := SetWord(hb, i + 1, lh[i]);
        i := i + 1;
      }
      Bwrite(c.start, hb);
      assert cache == old(cache);
    }

    method InstallTrans()
      requires Shape()
      modifies this`disk, this`cache, this`writes
      ensures disk == Installed(c, old(disk), lh, |lh|)
      ensures cache == old(cache) - (set b | b in lh)
      ensures writes == old(writes) + InstallTrace(c, old(disk), lh, |lh|)
    {
      hide Installed, InstallTrace;
      InstallNone(c, disk, lh);
      var tail := 0;
      while tail < |lh|
        invariant tail <= |lh|
        invariant disk == Installed(c, old(disk), lh, tail)
        invariant cache == old(cache) - (set b | b in lh[..tail])
        invariant writes == old(writes) + InstallTrace(c, old(disk), lh, tail)
      {
        InstallStep(c, old(disk), lh, tail);
        CleanStep(old(cache), lh, tail);
        Bwrite(lh[tail], Bread(c.start + tail + 1));
        tail := tail + 1;
      }
      assert lh[..tail] == lh;
    }

    method ReadHead()
      requires GoodDisk(c, disk) && cache == map[]
      modifies this`lh
      ensures lh == Head(disk[c.start])
    {
      var hb := Bread(c.start);
      var n := Word(hb, 0);
      lh := [];
      while |lh| < n
        invariant |lh| <= n
        invariant forall i | 0 <= i < |lh| :: lh[i] == Word(hb, i + 1)
      {
        lh := lh + [Word(hb, |lh| + 1)];
      }
    }

    /** The memory after a crash: st0 is the crashed machine. */
    constructor (c0: Config, d: Disk, ghost base0: Disk, ghost st0: State)
      requires Inv(c0, base0, st0) && !st0.up && st0.disk == d
      ensures c == c0 && base == base0 && disk == d && st == st0 && writes == []
      ensures Crashed()
    {
      c, base := c0, base0;
      disk, cache, lh, outstanding, committing := d, map[], [], 0, false;
      writes, st, closing := [], st0, 0;
    }

    ghost predicate Crashed()
      reads this
    {
      Inv(c, base, st) && !st.up && st.disk == disk && cache == map[] && outstanding == 0 && !committing
    }

    /** The disk accesses of recover_from_log(), in their order. */
    method RecoverDisk()
      requires GoodDisk(c, disk) && cache == map[]
      modifies this`disk, this`cache, this`lh, this`writes
      ensures lh == [] && cache == map[] && disk == Recovered(c, old(disk))
      ensures writes == old(writes) + RecoverTrace(c, old(disk), RecoverWrites(c, old(disk)))
    {
      hide Installed, Head, Word, SetWord, PutHead, Home, Recovered, RecoverTrace, InstallTrace, HeadWritten;
      RecoverTraceSplit(c, disk);
      ReadHead();
      InstallTrans();
      lh := [];
      WriteHead();
    }

    method RecoverFromLog()
      requires Crashed()
      modifies this`disk, this`cache, this`lh, this`writes, this`st
      ensures Valid() && !committing && NextStep(c, old(st), st, Step.Recover)
      ensures writes == old(writes) + RecoverTrace(c, old(disk), RecoverWrites(c, old(disk)))
    {
      hide Inv, NextStep, Recovered, RecoverTrace, GoodDisk;
      RecoverEnabled(c, base, st);
      RecoverDisk();
      st := st.(up := true, disk := Recovered(c, st.disk));
    }

    /** One pass of begin_op()'s loop: either the operation is admitted or it must sleep. */
    method BeginOp(ghost op: OpId) returns (admitted: bool)
      requires Valid() && op !in st.did
      modifies this`outstanding, this`st
      ensures Valid()
      ensures admitted <==> !committing && Admits(lh, old(outstanding))
      ensures admitted <==> !committing && |lh| + 10 * (old(outstanding) + 1) <= 30
      ensures admitted ==> NextStep(c, old(st), st, Begin(op))
      ensures admitted ==> outstanding == old(outstanding) + 1 && st == AfterBegin(old(st), op)
      ensures !admitted ==> st == old(st) && outstanding == old(outstanding)
    {
      hide Inv, NextStep;
      if committing {
        admitted := false;
      } else if |lh| + (outstanding + 1) * MAXOPBLOCKS > LOGSIZE {
        admitted := false;
      } else {
        outstanding := outstanding + 1;
        BeginEnabled(c, base, st, op);
        st := AfterBegin(st, op);
        admitted := true;
      }
    }

    /** log_write() of a buffer that holds data, by op.  Within op's budget it is a step of the machine. */
    method LogWrite(ghost op: OpId, b: nat, data: Block) returns (r: LogWriteResult)
      requires Valid() && Home(c, b) && (outstanding >= 1 ==> op in st.ops)
      modifies this`lh, this`cache, this`st
      ensures r == PanicTooBig <==> |old(lh)| >= LOGSIZE || |old(lh)| >= c.size - 1
      ensures r == Logged <==> |old(lh)| < LOGSIZE && |old(lh)| < c.size - 1 && outstanding >= 1
      ensures r == Logged ==> lh == (if b in old(lh) then old(lh) else old(lh) + [b]) && cache == old(cache)[b := data]
      ensures r == Logged && (b in old(lh) || old(st).ops[op] < MAXOPBLOCKS) ==>
                Valid() && NextStep(c, old(st), st, Step.LogWrite(op, b, data))
      ensures r != Logged ==> Valid() && st == old(st) && lh == old(lh) && cache == old(cache)
    {
      hide Inv, NextStep;
      if |lh| >= LOGSIZE || |lh| >= c.size - 1 {
        return PanicTooBig;
      }
      if outstanding < 1 {
        return PanicOutsideTransaction;
      }
      var i := 0;
      while i < |lh|
        invariant i <= |lh|
        invariant b !in lh[..i]
      {
        if lh[i] == b {
          break;
        }
        i := i + 1;
      }
      ghost var w := Write(op, b, data);
      Outstanding(c, base, st, op);
      if b in lh || st.ops[op] < MAXOPBLOCKS {
        LogWriteEnabled(c, base, st, w);
      }
      assert lh[..i] + lh[i..] == lh;
      lh := if i < |lh| then lh[i := b] else lh + [b];
      cache := cache[b := data];
      st := AfterLogWrite(st, w);
      r := Logged;
    }

    /** The first critical section of end_op(); committing is never set here, so it does not panic. */
    method EndOpStart(ghost op: OpId) returns (doCommit: bool)
      requires Valid() && outstanding >= 1 && op in st.ops
      modifies this`outstanding, this`committing, this`st, this`closing
      ensures Valid() && !old(committing)
      ensures doCommit == committing == (old(outstanding) == 1)
      ensures doCommit ==> st == old(st) && closing == op && st.ops.Keys == {op}
      ensures !doCommit ==> NextStep(c, old(st), st, End(op))
    {
      hide Inv, NextStep;
      outstanding := outstanding - 1;
      if outstanding == 0 {
        doCommit := true;
        committing := true;
        closing := op;
        OnlyKey(st.ops, op);
      } else {
        doCommit := false;
        EndEnabled(c, base, st, op);
        st := AfterEnd(st, op);
      }
    }

    /** The disk writes of commit(), in their order. */
    method CommitDisk(ghost vals: seq<Block>)
      requires Shape() && |vals| == |lh| && lh != []
      requires forall i | 0 <= i < |lh| :: vals[i] == Bread(lh[i])
      modifies this`disk, this`cache, this`lh, this`writes
      ensures lh == [] && cache == old(cache) - (set b | b in old(lh))
      ensures disk == LastDisk(c, old(disk), old(lh), vals) &&
              writes == old(writes) + WholeTrace(c, old(disk), old(lh), vals)
    {
      hide Installed, LogFilled, HeadWritten, Home, FillTrace, InstallTrace;
      WriteLog(vals);
      WriteHead();
      InstallTrans();
      lh := [];
      WriteHead();
    }

    method Commit()
      requires Valid() && committing && st.ops.Keys == {closing}
      modifies this`disk, this`cache, this`lh, this`writes, this`st
      ensures Valid() && NextStep(c, old(st), st, EndAndCommit(closing)) && st.ops == map[]
      ensures writes == old(writes) +
                        CommitTrace(c, old(disk), old(lh), CrashMachine.Logged(old(st)), CommitWrites(old(lh)))
    {
      hide Inv, NextStep, Home, CommitState, CommitTrace, LastDisk, WholeTrace;
      CommitPlan(c, base, st, closing);
      ghost var vals := CrashMachine.Logged(st);
      ghost var t := AfterCommit(st, closing, CommitState(c, disk, lh, vals, CommitWrites(lh)));
      if |lh| > 0 {
        CommitDisk(vals);
      }
      st := t;
    }

    /** The second critical section of end_op(). */
    method EndOpFinish()
      requires Valid() && committing && st.ops == map[]
      modifies this`committing
      ensures Valid() && !committing
    {
      committing := false;
    }

    /** end_op(): the last operation out commits the group. */
    method EndOp(ghost op: OpId)
      requires Valid() && outstanding >= 1 && op in st.ops
      modifies this
      ensures Valid() && !committing
      ensures NextStep(c, old(st), st, if old(outstanding) == 1 then EndAndCommit(op) else End(op))
      ensures writes == old(writes) + if old(outstanding) == 1 then
                          CommitTrace(c, old(disk), old(lh), CrashMachine.Logged(old(st)), CommitWrites(old(lh)))
                        else []
    {
      hide Inv, NextStep, CommitTrace;
      var doCommit := EndOpStart(op);
      if doCommit {
        Commit();
        EndOpFinish();
      }
    }
  }

  /** LOGSIZE / MAXOPBLOCKS is 3: an idle log admits three operations at once, and a fourth sleeps. */
  method ThreeAtOnce(log: Log, ghost ops: seq<OpId>) returns (admitted: seq<bool>)
    requires log.Valid() && log.lh == [] && log.outstanding == 0 && !log.committing
    requires |ops| == 4 && forall i, j | 0 <= i < j < 4 :: ops[i] != ops[j]
    requires forall op | op in ops :: op !in log.st.did
    modifies log`outstanding, log`st
    ensures log.Valid() && log.outstanding == 3 && admitted == [true, true, true, false]
  {
    hide Inv, NextStep;
    assert MAXOPBLOCKS == 10 && LOGSIZE == 30;
    var a := log.BeginOp(ops[0]);
    var b := log.BeginOp(ops[1]);
    var c := log.BeginOp(ops[2]);
    var d := log.BeginOp(ops[3]);
    admitted := [a, b, c, d];
  }

  lemma BeginTakes(c: Config, s: State, op: OpId)
    requires s.up && op !in s.did && |s.lh| + (|s.ops| + 1) * MAXOPBLOCKS <= LOGSIZE
    ensures NextStep(c, s, AfterBegin(s, op), Begin(op))
  {
  }

  lemma BeginEnabled(c: Config, base: Disk, s: State, op: OpId)
    requires Inv(c, base, s) && s.up && op !in s.did && |s.lh| + (|s.ops| + 1) * MAXOPBLOCKS <= LOGSIZE
    ensures var t := AfterBegin(s, op);
            Inv(c, base, t) && |t.ops| == |s.ops| + 1 && NextStep(c, s, t, Begin(op))
  {
    hide Inv, NextStep;
    if op in s.ops { Outstanding(c, base, s, op); }
    BeginTakes(c, s, op);
    BeginInv(c, base, s, AfterBegin(s, op), op);
    assert AfterBegin(s, op).ops.Keys == s.ops.Keys + {op};
  }

  lemma LogWriteEnabled(c: Config, base: Disk, s: State, w: Write)
    requires Inv(c, base, s) && s.up && w.op in s.ops && Home(c, w.block)
    requires |s.lh| < LOGSIZE && |s.lh| < c.size - 1
    requires w.block in s.lh || s.ops[w.op] < MAXOPBLOCKS
    ensures w.op in s.did
    ensures var t := AfterLogWrite(s, w);
            && Inv(c, base, t) && t.up && |t.ops| == |s.ops|
            && NextStep(c, s, t, Step.LogWrite(w.op, w.block, w.data))
  {
    hide Inv, Home, CommitState, CommitReady, Recovered, RecoverState, GoodDisk;
    Outstanding(c, base, s, w.op);
    var t := AfterLogWrite(s, w);
    LogWriteInv(c, base, s, t, w);
    assert t.ops.Keys == s.ops.Keys;
  }

  lemma Outstanding(c: Config, base: Disk, s: State, op: OpId)
    requires Inv(c, base, s) && op in s.ops
    ensures op in s.did
  {
  }

  lemma EndEnabled(c: Config, base: Disk, s: State, op: OpId)
    requires Inv(c, base, s) && s.up && op in s.ops && |s.ops| > 1
    ensures var t := AfterEnd(s, op);
            Inv(c, base, t) && |t.ops| == |s.ops| - 1 && NextStep(c, s, t, End(op))
  {
    hide Inv, CommitState, CommitReady, Recovered, RecoverState, GoodDisk;
    EndInv(c, base, s, AfterEnd(s, op), op);
    assert s.ops.Keys == AfterEnd(s, op).ops.Keys + {op};
  }

  lemma CommitPossible(c: Config, base: Disk, s: State, op: OpId)
    requires Inv(c, base, s) && s.up && s.ops.Keys == {op}
    ensures CommitReady(c, s, op) && (forall b | b in s.cache :: Home(c, b))
    ensures s.cache - (set b | b in s.lh) == map[]
  {
    assert forall b | b in s.cache :: b in s.lh;
  }

  lemma CommitEnabled(c: Config, base: Disk, s: State, op: OpId)
    requires Inv(c, base, s) && s.up && s.ops.Keys == {op} && CommitReady(c, s, op)
    ensures var t := AfterCommit(s, op, CommitState(c, s.disk, s.lh, CrashMachine.Logged(s), CommitWrites(s.lh)));
            Inv(c, base, t) && NextStep(c, s, t, EndAndCommit(op))
  {
    hide Inv, CommitState;
    var t := AfterCommit(s, op, CommitState(c, s.disk, s.lh, CrashMachine.Logged(s), CommitWrites(s.lh)));
    assert NextStep(c, s, t, EndAndCommit(op));
    EndAndCommitInv(c, base, s, t, op);
  }

  /** Everything Commit needs to know of the commit it is about to run. */
  lemma CommitPlan(c: Config, base: Disk, s: State, op: OpId)
    requires Inv(c, base, s) && s.up && s.ops.Keys == {op}
    ensures CommitReady(c, s, op) && (forall b | b in s.cache :: Home(c, b))
    ensures s.cache - (set b | b in s.lh) == map[]
    ensures var vals := CrashMachine.Logged(s);
            var last := CommitState(c, s.disk, s.lh, vals, CommitWrites(s.lh));
            && Inv(c, base, AfterCommit(s, op, last))
            && NextStep(c, s, AfterCommit(s, op, last), EndAndCommit(op))
            && (s.lh == [] ==> last == s.disk && s.cache == map[] && CommitTrace(c, s.disk, s.lh, vals, 0) == [])
            && (s.lh != [] ==> last == LastDisk(c, s.disk, s.lh, vals)
                               && CommitTrace(c, s.disk, s.lh, vals, CommitWrites(s.lh))
                                  == WholeTrace(c, s.disk, s.lh, vals))
  {
    hide Inv, NextStep, CommitState, CommitTrace, Home, LastDisk, WholeTrace;
    CommitPossible(c, base, s, op);
    CommitEnabled(c, base, s, op);
    if s.lh == [] {
      CommitNothing(c, s.disk, CrashMachine.Logged(s));
    } else {
      CommitClears(c, s.disk, s.lh, CrashMachine.Logged(s));
      CommitTraceSplit(c, s.disk, s.lh, CrashMachine.Logged(s));
    }
  }

  lemma OnlyKey(m: map<OpId, nat>, op: OpId)
    requires op in m && |m| == 1
    ensures m.Keys == {op}
  {
    assert |m.Keys - {op}| == 0;
  }

  lemma RecoverEnabled(c: Config, base: Disk, s: State)
    requires Inv(c, base, s) && !s.up
    ensures GoodDisk(c, s.disk)
    ensures var t := s.(up := true, disk := Recovered(c, s.disk));
            Inv(c, base, t) && NextStep(c, s, t, Step.Recover) && t.cache == map[] && t.lh == [] && t.ops == map[]
  {
    var t := s.(up := true, disk := Recovered(c, s.disk));
    RecoveryInv(c, base, s, t);
  }

  lemma RecoverTraceSplit(c: Config, d: Disk)
    requires GoodDisk(c, d)
    ensures var lh := Head(d[c.start]);
            && Recovered(c, d) == HeadWritten(c, Installed(c, d, lh, |lh|), [])
            && RecoverTrace(c, d, RecoverWrites(c, d)) == InstallTrace(c, d, lh, |lh|) + [Recovered(c, d)]
  {
    hide Installed, Head;
    var lh := Head(d[c.start]);
    forall k | 0 <= k < |lh|
      ensures RecoverTrace(c, d, |lh| + 1)[k] == InstallTrace(c, d, lh, |lh|)[k]
    {
      InstallTraceAt(c, d, lh, |lh|, k);
      RecoverTraceAt(c, d, |lh| + 1, k);
    }
  }

  // ---- the writes of a commit, one kind at a time ----

  lemma CommitNothing(c: Config, d: Disk, vals: seq<Block>)
    requires ValidConfig(c) && |d| == c.blocks && vals == [] && Loggable(c, [])
    ensures CommitTrace(c, d, [], vals, 0) == [] && CommitState(c, d, [], vals, 0) == d
  {
  }

  lemma {:induction false} CommitFills(c: Config, d: Disk, lh: seq<nat>, vals: seq<Block>, n: nat)
    requires ValidConfig(c) && |d| == c.blocks && Loggable(c, lh) && |vals| == |lh| && n <= |lh|
    ensures CommitTrace(c, d, lh, vals, n) == FillTrace(c, d, vals, n)
  {
    hide Installed, Sealed, LogFilled, HeadWritten;
    if n > 0 {
      CommitFills(c, d, lh, vals, n - 1);
    }
  }

  lemma {:induction false} CommitInstalls(c: Config, d: Disk, lh: seq<nat>, vals: seq<Block>, n: nat)
    requires ValidConfig(c) && |d| == c.blocks && Loggable(c, lh) && |vals| == |lh| && n <= |lh| && lh != []
    ensures var full := Sealed(c, d, lh, vals);
            CommitTrace(c, d, lh, vals, |lh| + 1 + n) ==
            FillTrace(c, d, vals, |lh|) + [full] + InstallTrace(c, full, lh, n)
  {
    hide CommitState, Installed, Sealed, LogFilled, HeadWritten, FillTrace;
    var full := Sealed(c, d, lh, vals);
    var fill := FillTrace(c, d, vals, |lh|);
    CommitInstalled(c, d, lh, vals, n);
    if n == 0 {
      InstallNone(c, full, lh);
      CommitFills(c, d, lh, vals, |lh|);
      assert fill + [full] + [] == fill + [full];
    } else {
      CommitInstalls(c, d, lh, vals, n - 1);
      Append(fill + [full], InstallTrace(c, full, lh, n - 1), Installed(c, full, lh, n));
    }
  }

  lemma CommitInstalled(c: Config, d: Disk, lh: seq<nat>, vals: seq<Block>, n: nat)
    requires ValidConfig(c) && |d| == c.blocks && Loggable(c, lh) && |vals| == |lh| && n <= |lh| && lh != []
    ensures CommitState(c, d, lh, vals, |lh| + 1 + n) == Installed(c, Sealed(c, d, lh, vals), lh, n)
  {
    hide Installed, Sealed, LogFilled, HeadWritten;
  }

  lemma Append<T>(a: seq<T>, b: seq<T>, x: T)
    ensures a + (b + [x]) == a + b + [x]
  {
  }

  lemma CommitClears(c: Config, d: Disk, lh: seq<nat>, vals: seq<Block>)
    requires ValidConfig(c) && |d| == c.blocks && Loggable(c, lh) && |vals| == |lh| && lh != []
    ensures CommitState(c, d, lh, vals, CommitWrites(lh)) == LastDisk(c, d, lh, vals)
  {
    hide Installed, LogFilled, HeadWritten;
  }

  lemma CommitTraceSplit(c: Config, d: Disk, lh: seq<nat>, vals: seq<Block>)
    requires ValidConfig(c) && |d| == c.blocks && Loggable(c, lh) && |vals| == |lh| && lh != []
    ensures CommitTrace(c, d, lh, vals, CommitWrites(lh)) == WholeTrace(c, d, lh, vals)
  {
    hide CommitState, LastDisk, Installed, LogFilled, HeadWritten, InstallTrace, FillTrace;
    CommitInstalls(c, d, lh, vals, |lh|);
    CommitClears(c, d, lh, vals);
  }
}
