/**
 * Every run of the logging layer: any number of operations between begin_op() and end_op(),
 * group commit, crashes after any single-block write of a commit or of a recovery, and
 * recoveries that are themselves cut short any number of times.
 */
module CrashMachine {
  import opened Blocks
  import opened RedoLog

  type OpId = nat

  /** One bread / modify / log_write / brelse sequence of one operation. */
  datatype Write = Write(op: OpId, block: nat, data: Block)

  /** The operations that ended since the last commit and every write made since then. */
  datatype Group = Group(ops: set<OpId>, writes: seq<Write>)

  /**
   * up, disk, cache (the dirty, pinned buffers), lh and ops (one entry for each outstanding
   * operation: how many blocks it added to the log) are the machine.  cur, groups, acked and did
   * only record its history: the open group, the groups that passed their commit point, how many
   * of those commit() calls returned, and all the writes each operation ever made.
   */
  datatype State = State(
    up: bool, disk: Disk, cache: map<nat, Block>, lh: seq<nat>, ops: map<OpId, nat>,
    cur: Group, groups: seq<Group>, acked: nat, did: map<OpId, seq<Write>>)

  datatype Step =
    | Begin(op: OpId)
    | LogWrite(op: OpId, block: nat, data: Block)
    | End(op: OpId)
    | EndAndCommit(op: OpId)
    | Crash
    | CrashInCommit(op: OpId, k: nat)
    | Recover
    | CrashInRecovery(k: nat)

  // ---- effects ----

  function Apply(h: Disk, ws: seq<Write>): (r: Disk)
    ensures |r| == |h|
  {
    if ws == [] then h
    else
      var w := ws[|ws| - 1];
      var p := Apply(h, ws[..|ws| - 1]);
      if w.block < |h| then p[w.block := w.data] else p
  }

  /** The effect of whole groups, in order. */
  function Effect(h: Disk, gs: seq<Group>): (r: Disk)
    ensures |r| == |h|
  {
    if gs == [] then h else Apply(Effect(h, gs[..|gs| - 1]), gs[|gs| - 1].writes)
  }

  /** What bread() returns: the pinned buffer if there is one, else the disk block. */
  function View(d: Disk, cache: map<nat, Block>): (r: Disk) {
    seq(|d|, b requires 0 <= b < |d| => if b in cache then cache[b] else d[b])
  }

  function Logged(s: State): (vals: seq<Block>)
    requires forall i | 0 <= i < |s.lh| :: s.lh[i] in s.cache
  {
    seq(|s.lh|, i requires 0 <= i < |s.lh| => s.cache[s.lh[i]])
  }

  function WritesOf(ws: seq<Write>, op: OpId): (r: seq<Write>) {
    if ws == [] then []
    else
      var rest := WritesOf(ws[..|ws| - 1], op);
      if ws[|ws| - 1].op == op then rest + [ws[|ws| - 1]] else rest
  }

  /** The unused part of the outstanding operations' MAXOPBLOCKS budgets. */
  ghost function Unused(ops: map<OpId, nat>): int
    decreases |ops|
  {
    if ops == map[] then 0
    else
      var op :| op in ops;
      MAXOPBLOCKS - ops[op] + Unused(ops - {op})
  }

  // ---- steps ----

  const NO_GROUP := Group({}, [])

  ghost predicate Init(c: Config, base: Disk, s: State) {
    EmptyLog(c, base) && s == State(true, base, map[], [], map[], NO_GROUP, [], 0, map[])
  }

  /** begin_op(): the sleeping branches are the states in which this is not enabled. */
  ghost predicate BeginStep(c: Config, s: State, t: State, op: OpId) {
    && s.up
    && op !in s.did
    && |s.lh| + (|s.ops| + 1) * MAXOPBLOCKS <= LOGSIZE
    && t == AfterBegin(s, op)
  }

  function AfterBegin(s: State, op: OpId): State {
    s.(ops := s.ops[op := 0], did := s.did[op := []])
  }

  /** log_write() past its two panics, as one atomic step, by an operation within its budget. */
  ghost predicate LogWriteStep(c: Config, s: State, t: State, w: Write) {
    && s.up
    && w.op in s.ops && w.op in s.did
    && Home(c, w.block)
    && |s.lh| < LOGSIZE && |s.lh| < c.size - 1
    && (w.block in s.lh || s.ops[w.op] < MAXOPBLOCKS)
    && t == AfterLogWrite(s, w)
  }

  function AfterLogWrite(s: State, w: Write): State
    requires w.op in s.ops && w.op in s.did
  {
    s.(cache := s.cache[w.block := w.data],
       lh := if w.block in s.lh then s.lh else s.lh + [w.block],
       ops := if w.block in s.lh then s.ops else s.ops[w.op := s.ops[w.op] + 1],
       cur := s.cur.(writes := s.cur.writes + [w]),
       did := s.did[w.op := s.did[w.op] + [w]])
  }

  /** The group that the last end_op() closes. */
  function Closed(s: State, op: OpId): Group { s.cur.(ops := s.cur.ops + {op}) }

  function AfterEnd(s: State, op: OpId): State {
    s.(ops := s.ops - {op}, cur := Closed(s, op))
  }

  function AfterCommit(s: State, op: OpId, d: Disk): State {
    s.(disk := d, cache := map[], lh := [], ops := map[], cur := NO_GROUP,
       groups := s.groups + [Closed(s, op)], acked := |s.groups| + 1)
  }

  ghost predicate CommitReady(c: Config, s: State, op: OpId) {
    && s.up && s.ops.Keys == {op}
    && ValidConfig(c) && |s.disk| == c.blocks && Loggable(c, s.lh)
    && (forall i | 0 <= i < |s.lh| :: s.lh[i] in s.cache)
  }

  function Down(s: State): State {
    s.(up := false, cache := map[], lh := [], ops := map[], cur := NO_GROUP)
  }

  ghost predicate NextStep(c: Config, s: State, t: State, step: Step) {
    match step
    case Begin(op) => BeginStep(c, s, t, op)
    case LogWrite(op, b, data) => LogWriteStep(c, s, t, Write(op, b, data))
    case End(op) =>
      && s.up && op in s.ops && |s.ops| > 1
      && t == AfterEnd(s, op)
    case EndAndCommit(op) =>
      && CommitReady(c, s, op)
      && t == AfterCommit(s, op, CommitState(c, s.disk, s.lh, Logged(s), CommitWrites(s.lh)))
    case Crash => s.up && t == Down(s)
    case CrashInCommit(op, k) =>
      && CommitReady(c, s, op) && k <= CommitWrites(s.lh)
      && t == Down(s).(disk := CommitState(c, s.disk, s.lh, Logged(s), k),
                       groups := if k <= |s.lh| then s.groups else s.groups + [Closed(s, op)])
    case Recover =>
      !s.up && GoodDisk(c, s.disk) && t == s.(up := true, disk := Recovered(c, s.disk))
    case CrashInRecovery(k) =>
      && !s.up && GoodDisk(c, s.disk) && k <= RecoverWrites(c, s.disk)
      && t == s.(disk := RecoverState(c, s.disk, k))
  }

  ghost predicate Next(c: Config, s: State, t: State) {
    exists step :: NextStep(c, s, t, step)
  }

  ghost predicate Run(c: Config, base: Disk, run: seq<State>) {
    && |run| > 0
    && Init(c, base, run[0])
    && forall i | 0 <= i < |run| - 1 :: Next(c, run[i], run[i + 1])
  }

  // ---- the invariant ----

  /** The recovered home blocks are the effect of the groups past their commit point. */
  ghost predicate Durable(c: Config, base: Disk, s: State) {
    && GoodDisk(c, s.disk)
    && SameHome(c, Recovered(c, s.disk), Effect(base, s.groups))
  }

  /** The buffers show the committed groups and then the open one; the disk only the former. */
  ghost predicate Coherent(c: Config, base: Disk, s: State) {
    && EmptyLog(c, s.disk)
    && SameHome(c, s.disk, Effect(base, s.groups))
    && SameHome(c, View(s.disk, s.cache), Apply(Effect(base, s.groups), s.cur.writes))
  }

  /** Space: the pinned blocks are the logged ones, distinct, and reserved space never runs out. */
  ghost predicate Space(c: Config, s: State) {
    && Loggable(c, s.lh)
    && (forall b: nat :: b in s.lh <==> b in s.cache)
    && (forall op | op in s.ops :: s.ops[op] <= MAXOPBLOCKS)
    && |s.lh| + Unused(s.ops) <= LOGSIZE
  }

  ghost predicate WholeGroup(s: State, g: Group) {
    && (forall w | w in g.writes :: w.op in g.ops)
    && (forall op | op in g.ops :: op in s.did && op !in s.ops && WritesOf(g.writes, op) == s.did[op])
  }

  /** Groups hold whole operations only, each operation in at most one group. */
  ghost predicate Whole(s: State) {
    && (forall g | g in s.groups :: WholeGroup(s, g))
    && (forall i, j | 0 <= i < j < |s.groups| :: s.groups[i].ops !! s.groups[j].ops)
  }

  /** The open group holds the ended and the outstanding operations and nobody else's writes. */
  ghost predicate OpenGroup(s: State) {
    && s.ops.Keys <= s.did.Keys
    && (forall w | w in s.cur.writes :: w.op in s.cur.ops || w.op in s.ops)
    && (forall op | op in s.cur.ops || op in s.ops ::
          op in s.did && WritesOf(s.cur.writes, op) == s.did[op])
    && s.cur.ops !! s.ops.Keys
    && (forall g | g in s.groups :: g.ops !! s.cur.ops && g.ops !! s.ops.Keys)
  }

  ghost predicate Inv(c: Config, base: Disk, s: State) {
    && ValidConfig(c) && |base| == c.blocks
    && Durable(c, base, s)
    && s.acked <= |s.groups|
    && Whole(s) && OpenGroup(s)
    && (s.up ==> Coherent(c, base, s) && Space(c, s))
    && (!s.up ==> s == Down(s))
  }
}
