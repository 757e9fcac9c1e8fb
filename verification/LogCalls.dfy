/** The log_write() calls of a transaction: what they leave in the buffers, and which blocks they name. */
module LogCalls {
  import opened Blocks
  import opened FsLayout

  /** log_write() of the buffer of a block, with the contents it then has. */
  datatype LogCall = LogCall(block: nat, data: Block)

  /** The blocks after the calls, one after the other. */
  ghost function Replay(d: Disk, calls: seq<LogCall>): (e: Disk)
    ensures |e| == |d|
  {
    if calls == [] then d
    else
      var e := Replay(d, calls[..|calls| - 1]);
      var w := calls[|calls| - 1];
      if w.block < |d| then e[w.block := w.data] else e
  }

  ghost function CallBlocks(calls: seq<LogCall>): set<nat> {
    if calls == [] then {} else CallBlocks(calls[..|calls| - 1]) + {calls[|calls| - 1].block}
  }

  /** The calls lead from the blocks at the start of the transaction to those now, and name the blocks logged. */
  ghost predicate Traced(start: Disk, calls: seq<LogCall>, d: Disk, logged: set<nat>) {
    d == Replay(start, calls) && logged == CallBlocks(calls)
  }

  /** Only blocks in the set differ. */
  ghost predicate OnlyIn(d: Disk, e: Disk, blocks: set<nat>) {
    |e| == |d| && forall b: nat | b < |d| && b !in blocks :: e[b] == d[b]
  }

  lemma {:induction false} ReplayOnlyIn(d: Disk, calls: seq<LogCall>)
    ensures OnlyIn(d, Replay(d, calls), CallBlocks(calls))
  {
    if calls != [] {
      ReplayOnlyIn(d, calls[..|calls| - 1]);
    }
  }

  lemma TracedMore(start: Disk, calls: seq<LogCall>, d: Disk, logged: set<nat>, w: LogCall)
    requires Traced(start, calls, d, logged) && w.block < |d|
    ensures Traced(start, calls + [w], d[w.block := w.data], logged + {w.block})
  {
    assert (calls + [w])[..|calls|] == calls;
  }

  /** Only blocks of the inode table, the bitmap and the data area are logged. */
  ghost predicate Inside(sb: Super, logged: set<nat>) {
    forall b | b in logged :: sb.inodestart <= b < sb.size
  }

  lemma InsideMore(sb: Super, logged: set<nat>, more: set<nat>)
    requires Inside(sb, logged) && forall b | b in more :: sb.inodestart <= b < sb.size
    ensures Inside(sb, logged + more)
  {
  }

  lemma {:induction false} CallInside(sb: Super, calls: seq<LogCall>, k: nat)
    requires Inside(sb, CallBlocks(calls)) && k < |calls|
    ensures sb.inodestart <= calls[k].block < sb.size
    decreases |calls|
  {
    if k < |calls| - 1 {
      CallInside(sb, calls[..|calls| - 1], k);
    }
  }
}
