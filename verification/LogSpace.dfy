/**
 * Whether what begin_op() reserves is there.  An admitted operation finds room for MAXOPBLOCKS blocks exactly
 * if the log on the disk has more than LOGSIZE blocks: log_write() keeps one for the header.  mkfs makes a log
 * of LOGSIZE blocks.
 */
module LogSpace {
  import opened Blocks
  import opened RedoLog
  import opened CrashMachine
  import opened CrashSafety
  import opened LogProgram

  /** An operation that has not used up its MAXOPBLOCKS has room in the in-core list. */
  lemma BudgetFits(c: Config, base: Disk, s: State, op: OpId)
    requires Inv(c, base, s) && s.up && op in s.ops && s.ops[op] < MAXOPBLOCKS
    ensures |s.lh| < LOGSIZE
  {
    hide Coherent, Durable, Whole, OpenGroup, Unused;
    UnusedWithout(s.ops, op);
    UnusedBounds(s.ops - {op});
  }

  /** So in a log of more than LOGSIZE blocks log_write() of a new block within the budget never panics. */
  method WriteWithinBudget(log: Log, ghost op: OpId, b: nat, data: Block) returns (r: LogWriteResult)
    requires log.Valid() && Home(log.c, b) && log.outstanding >= 1 && op in log.st.ops
    requires log.st.ops[op] < MAXOPBLOCKS
    modifies log`lh, log`cache, log`st
    ensures log.Valid() && (r == LogWriteResult.Logged <==> |old(log.lh)| < log.c.size - 1)
    ensures log.c.size > LOGSIZE ==> r == LogWriteResult.Logged
    ensures r == LogWriteResult.Logged ==>
              && log.lh == (if b in old(log.lh) then old(log.lh) else old(log.lh) + [b])
              && log.st.ops == (if b in old(log.lh) then old(log.st).ops
                                else old(log.st).ops[op := old(log.st).ops[op] + 1])
    ensures r != LogWriteResult.Logged ==> r == PanicTooBig && log.st == old(log.st) && log.lh == old(log.lh)
  {
    hide Inv, NextStep;
    BudgetFits(log.c, log.base, log.st, op);
    r := log.LogWrite(op, b, data);
    if r == LogWriteResult.Logged {
      WroteOne(log.c, old(log.st), log.st, op, b, data);
    }
  }

  lemma WroteOne(c: Config, s: State, t: State, op: OpId, b: nat, data: Block)
    requires op in s.ops && NextStep(c, s, t, Step.LogWrite(op, b, data))
    ensures t.ops == if b in s.lh then s.ops else s.ops[op := s.ops[op] + 1]
  {
  }

  /** How far three operations are after k new blocks, ten each in turn. */
  ghost function Spent(ops: seq<OpId>, k: nat): map<OpId, nat>
    requires |ops| == 3
  {
    map[ops[0] := if k < 10 then k else 10,
        ops[1] := if k < 10 then 0 else if k < 20 then k - 10 else 10,
        ops[2] := if k < 20 then 0 else k - 20]
  }

  lemma SpentMore(ops: seq<OpId>, k: nat)
    requires |ops| == 3 && ops[0] != ops[1] && ops[0] != ops[2] && ops[1] != ops[2] && k < 30
    ensures ops[k / 10] in Spent(ops, k) && Spent(ops, k)[ops[k / 10]] == k % 10
    ensures Spent(ops, k + 1) == Spent(ops, k)[ops[k / 10] := k % 10 + 1]
  {
  }

  lemma SpentBounds(ops: seq<OpId>, k: nat)
    requires |ops| == 3 && ops[0] != ops[1] && ops[0] != ops[2] && ops[1] != ops[2] && k < 30
    ensures forall op | op in ops :: op in Spent(ops, k) && Spent(ops, k)[op] <= 10
  {
  }

  ghost predicate Distinct(blocks: seq<nat>) { forall i, j | 0 <= i < j < |blocks| :: blocks[i] != blocks[j] }

  lemma NextIsNew(blocks: seq<nat>, k: nat)
    requires Distinct(blocks) && k < |blocks|
    ensures blocks[k] !in blocks[..k] && blocks[..k + 1] == blocks[..k] + [blocks[k]]
  {
  }

  method BeginThree(log: Log, ghost ops: seq<OpId>)
    requires log.Valid() && log.lh == [] && log.outstanding == 0 && !log.committing && log.st.ops == map[]
    requires |ops| == 3 && ops[0] != ops[1] && ops[0] != ops[2] && ops[1] != ops[2]
    requires forall op | op in ops :: op !in log.st.did
    modifies log`outstanding, log`st
    ensures log.Valid() && log.outstanding == 3 && log.st.ops == Spent(ops, 0)
  {
    hide Inv, NextStep;
    assert MAXOPBLOCKS == 10 && LOGSIZE == 30;
    var _ := log.BeginOp(ops[0]);
    var _ := log.BeginOp(ops[1]);
    var _ := log.BeginOp(ops[2]);
  }

  /**
   * In a log of LOGSIZE blocks or fewer, which mkfs makes, three admitted operations that write new blocks, each
   * within its ten, run into the panic at the block that would take the header's place.
   */
  method SmallLogPanics(log: Log, ghost ops: seq<OpId>, blocks: seq<nat>, data: Block) returns (r: LogWriteResult)
    requires log.Valid() && log.lh == [] && log.outstanding == 0 && !log.committing && log.st.ops == map[]
    requires |ops| == 3 && ops[0] != ops[1] && ops[0] != ops[2] && ops[1] != ops[2]
    requires forall op | op in ops :: op !in log.st.did
    requires 1 <= log.c.size <= LOGSIZE && |blocks| == log.c.size
    requires (forall i | 0 <= i < |blocks| :: Home(log.c, blocks[i]))
    requires Distinct(blocks)
    modifies log`outstanding, log`st, log`lh, log`cache
    ensures log.Valid() && r == PanicTooBig && log.outstanding == 3 && log.lh == blocks[..log.c.size - 1]
    ensures forall op | op in ops :: op in log.st.ops && log.st.ops[op] <= MAXOPBLOCKS
    ensures log.st.ops[ops[(log.c.size - 1) / 10]] < MAXOPBLOCKS
  {
    hide Inv, NextStep, Spent, Distinct, Home;
    BeginThree(log, ops);
    var k := 0;
    while k < log.c.size - 1
      invariant 0 <= k < log.c.size && log.Valid() && log.outstanding == 3
      invariant log.lh == blocks[..k] && log.st.ops == Spent(ops, k)
    {
      SpentMore(ops, k);
      NextIsNew(blocks, k);
      r := WriteWithinBudget(log, ops[k / 10], blocks[k], data);
      k := k + 1;
    }
    SpentMore(ops, k);
    r := WriteWithinBudget(log, ops[k / 10], blocks[k], data);
    SpentBounds(ops, k);
  }
}
