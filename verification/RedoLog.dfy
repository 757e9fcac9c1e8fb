/**
 * The on-disk redo log of log.c as functions of the disk: the header block, what each
 * single-block write of commit() and of recover_from_log() leaves on the disk, and what
 * recovery makes of every one of those disks.
 */
module RedoLog {
  import opened Blocks

  const MAXOPBLOCKS: nat := 10
  const LOGSIZE: nat := 30

  /** log.start, log.size and the number of blocks of the disk. */
  datatype Config = Config(start: nat, size: nat, blocks: nat)

  ghost predicate ValidConfig(c: Config) {
    1 <= c.size && c.start + c.size <= c.blocks <= WORD_LIMIT
  }

  /** A block outside the log: one that has a home location. */
  predicate Home(c: Config, b: nat) {
    b < c.blocks && !(c.start <= b < c.start + c.size)
  }

  /** A list of block numbers the log can hold: distinct home blocks, with a log slot each. */
  ghost predicate Loggable(c: Config, lh: seq<nat>) {
    && |lh| <= LOGSIZE
    && |lh| <= c.size - 1
    && (forall i | 0 <= i < |lh| :: Home(c, lh[i]))
    && (forall i, j | 0 <= i < j < |lh| :: lh[i] != lh[j])
  }

  /** The block numbers a header block lists. */
  function Head(b: Block): (lh: seq<nat>)
    requires Word(b, 0) <= LOGSIZE
  {
    seq(Word(b, 0), i requires 0 <= i < Word(b, 0) => Word(b, i + 1))
  }

  /** The header block after write_head() has stored lh.n and the first k entries. */
  function PutHead(b: Block, lh: seq<nat>, k: nat): (r: Block)
    requires k <= |lh| <= LOGSIZE
    requires forall i | 0 <= i < |lh| :: lh[i] < WORD_LIMIT
    ensures Word(r, 0) == |lh|
    ensures forall i | 0 <= i < k :: Word(r, i + 1) == lh[i]
    ensures forall j | k < j < WORDS :: Word(r, j) == Word(b, j)
  {
    if k == 0 then SetWord(b, 0, |lh|) else SetWord(PutHead(b, lh, k - 1), k, lh[k - 1])
  }

  /** What a header block was written from can be read back from it. */
  lemma HeadRoundTrip(b: Block, lh: seq<nat>)
    requires |lh| <= LOGSIZE
    requires forall i | 0 <= i < |lh| :: lh[i] < WORD_LIMIT
    ensures Head(PutHead(b, lh, |lh|)) == lh
  {
    var h := Head(PutHead(b, lh, |lh|));
    assert |h| == |lh|;
    assert forall i | 0 <= i < |lh| :: h[i] == lh[i];
  }

  ghost predicate GoodDisk(c: Config, d: Disk) {
    && ValidConfig(c)
    && |d| == c.blocks
    && Word(d[c.start], 0) <= LOGSIZE
    && Loggable(c, Head(d[c.start]))
  }

  ghost predicate EmptyLog(c: Config, d: Disk) {
    ValidConfig(c) && |d| == c.blocks && Word(d[c.start], 0) == 0
  }

  /** Two disks that agree on every block with a home location. */
  ghost predicate SameHome(c: Config, d: Disk, e: Disk) {
    |d| == |e| == c.blocks && forall b: nat | Home(c, b) :: d[b] == e[b]
  }

  // ---- the writes of commit() ----

  /** The disk after write_log() has copied the first k values into log slots. */
  function LogFilled(c: Config, d: Disk, vals: seq<Block>, k: nat): (r: Disk)
    requires k <= |vals| && c.start + |vals| < |d|
    ensures |r| == |d|
  {
    seq(|d|, j requires 0 <= j < |d| => if c.start < j <= c.start + k then vals[j - c.start - 1] else d[j])
  }

  /** The disk after write_head() has written lh. */
  function HeadWritten(c: Config, d: Disk, lh: seq<nat>): (r: Disk)
    requires ValidConfig(c) && |d| == c.blocks && Loggable(c, lh)
    ensures |r| == |d|
  {
    d[c.start := PutHead(d[c.start], lh, |lh|)]
  }

  /** The disk at the commit point: log slots filled and header written. */
  function Sealed(c: Config, d: Disk, lh: seq<nat>, vals: seq<Block>): (r: Disk)
    requires ValidConfig(c) && |d| == c.blocks && Loggable(c, lh) && |vals| == |lh|
    ensures |r| == |d|
  {
    HeadWritten(c, LogFilled(c, d, vals, |lh|), lh)
  }

  /** At the commit point the log lists the new values, and the home blocks are untouched. */
  lemma SealedDisk(c: Config, d: Disk, lh: seq<nat>, vals: seq<Block>)
    requires ValidConfig(c) && |d| == c.blocks && Loggable(c, lh) && |vals| == |lh|
    ensures var r := Sealed(c, d, lh, vals);
            && Word(r[c.start], 0) == |lh| && Head(r[c.start]) == lh && SameHome(c, r, d)
            && forall i | 0 <= i < |lh| :: r[c.start + 1 + i] == vals[i]
  {
    hide Word, SetWord, Head, PutHead;
    HeadRoundTrip(LogFilled(c, d, vals, |lh|)[c.start], lh);
  }

  /** The disk after install_trans() has copied the first k log slots to their homes. */
  function Installed(c: Config, d: Disk, lh: seq<nat>, k: nat): (r: Disk)
    requires ValidConfig(c) && |d| == c.blocks && Loggable(c, lh) && k <= |lh|
    ensures |r| == |d|
    ensures forall i | 0 <= i < k :: r[lh[i]] == d[c.start + 1 + i]
    ensures forall b | 0 <= b < |d| && b !in lh[..k] :: r[b] == d[b]
  {
    if k == 0 then d
    else
      var p := Installed(c, d, lh, k - 1);
      assert lh[..k] == lh[..k - 1] + [lh[k - 1]];
      p[lh[k - 1] := d[c.start + k]]
  }

  /** Number of single-block writes of a commit of lh: copies, header, installs, cleared header. */
  function CommitWrites(lh: seq<nat>): nat { if lh == [] then 0 else 2 * |lh| + 2 }

  /** The disk after the first k single-block writes of commit(). */
  function CommitState(c: Config, d: Disk, lh: seq<nat>, vals: seq<Block>, k: nat): (r: Disk)
    requires ValidConfig(c) && |d| == c.blocks && Loggable(c, lh) && |vals| == |lh|
    requires k <= CommitWrites(lh)
  {
    if lh == [] then d
    else if k <= |lh| then LogFilled(c, d, vals, k)
    else
      var full := Sealed(c, d, lh, vals);
      if k <= 2 * |lh| + 1 then Installed(c, full, lh, k - |lh| - 1)
      else HeadWritten(c, Installed(c, full, lh, |lh|), [])
  }

  // ---- the writes of recover_from_log() ----

  /** Number of single-block writes of recovery: installs and the cleared header. */
  function RecoverWrites(c: Config, d: Disk): nat
    requires GoodDisk(c, d)
  {
    |Head(d[c.start])| + 1
  }

  /** The disk after the first k single-block writes of recover_from_log(). */
  function RecoverState(c: Config, d: Disk, k: nat): (r: Disk)
    requires GoodDisk(c, d) && k <= RecoverWrites(c, d)
  {
    var lh := Head(d[c.start]);
    if k <= |lh| then Installed(c, d, lh, k)
    else HeadWritten(c, Installed(c, d, lh, |lh|), [])
  }

  /** The disk that an undisturbed recovery leaves. */
  function Recovered(c: Config, d: Disk): (r: Disk)
    requires GoodDisk(c, d)
  {
    RecoverState(c, d, RecoverWrites(c, d))
  }

  // ---- what recovery makes of a crash ----

  lemma InstalledLogUntouched(c: Config, d: Disk, lh: seq<nat>, k: nat)
    requires ValidConfig(c) && |d| == c.blocks && Loggable(c, lh) && k <= |lh|
    ensures forall b | c.start <= b < c.start + c.size :: Installed(c, d, lh, k)[b] == d[b]
  {
    assert forall b | c.start <= b < c.start + c.size :: b !in lh[..k];
  }

  /** With an empty log recovery changes no home block. */
  lemma RecoverEmpty(c: Config, d: Disk)
    requires EmptyLog(c, d)
    ensures GoodDisk(c, d) && SameHome(c, Recovered(c, d), d) && EmptyLog(c, Recovered(c, d))
  {
    assert Head(d[c.start]) == [];
  }

  /** Recovery leaves an empty log and every logged value at its home. */
  lemma RecoveredBlocks(c: Config, d: Disk)
    requires GoodDisk(c, d)
    ensures EmptyLog(c, Recovered(c, d))
    ensures var lh := Head(d[c.start]);
            && (forall i | 0 <= i < |lh| :: Recovered(c, d)[lh[i]] == d[c.start + 1 + i])
            && (forall b: nat | Home(c, b) && b !in lh :: Recovered(c, d)[b] == d[b])
  {
    hide Word, SetWord, PutHead, Head;
    var lh := Head(d[c.start]);
    assert lh[..|lh|] == lh;
  }

  /** A crash after any write of recovery itself leaves a disk that recovers to the same home blocks. */
  lemma CrashInRecovery(c: Config, d: Disk, k: nat)
    requires GoodDisk(c, d) && k <= RecoverWrites(c, d)
    ensures GoodDisk(c, RecoverState(c, d, k))
    ensures SameHome(c, Recovered(c, RecoverState(c, d, k)), Recovered(c, d))
  {
    hide Word, SetWord, PutHead, Head, HeadWritten;
    var lh := Head(d[c.start]);
    var e := RecoverState(c, d, k);
    RecoveredBlocks(c, d);
    if k <= |lh| {
      InstalledLogUntouched(c, d, lh, k);
      assert Head(e[c.start]) == lh;
      RecoveredBlocks(c, e);
      forall b: nat | Home(c, b)
        ensures Recovered(c, e)[b] == Recovered(c, d)[b]
      {
        if b in lh {
          var i :| 0 <= i < |lh| && lh[i] == b;
          assert e[c.start + 1 + i] == d[c.start + 1 + i];
        } else {
          assert b !in lh[..k];
        }
      }
    } else {
      RecoverEmpty(c, e);
    }
  }

  lemma CrashBeforeHeader(c: Config, d: Disk, vals: seq<Block>, k: nat)
    requires EmptyLog(c, d) && k <= |vals| < c.size
    ensures EmptyLog(c, LogFilled(c, d, vals, k)) && GoodDisk(c, LogFilled(c, d, vals, k))
    ensures SameHome(c, Recovered(c, LogFilled(c, d, vals, k)), d)
  {
    var e := LogFilled(c, d, vals, k);
    assert SameHome(c, e, d);
    RecoverEmpty(c, e);
  }

  lemma CrashAfterHeader(c: Config, d: Disk, lh: seq<nat>, vals: seq<Block>, k: nat)
    requires ValidConfig(c) && |d| == c.blocks && Loggable(c, lh) && |vals| == |lh| && k <= |lh|
    ensures var e := Installed(c, Sealed(c, d, lh, vals), lh, k);
            && GoodDisk(c, e) && |Recovered(c, e)| == c.blocks
            && (forall i | 0 <= i < |lh| :: Recovered(c, e)[lh[i]] == vals[i])
            && (forall b: nat | Home(c, b) && b !in lh :: Recovered(c, e)[b] == d[b])
  {
    hide Word, SetWord, PutHead, Sealed, HeadWritten, Recovered, LogFilled;
    var full := Sealed(c, d, lh, vals);
    SealedDisk(c, d, lh, vals);
    var e := Installed(c, full, lh, k);
    InstalledLogUntouched(c, full, lh, k);
    assert e[c.start] == full[c.start];
    RecoveredBlocks(c, e);
    forall b: nat | Home(c, b) && b !in lh
      ensures Recovered(c, e)[b] == d[b]
    {
      assert b !in lh[..k];
    }
  }

  /** A commit that runs to the end leaves the new values at home and an empty log. */
  lemma CommitDone(c: Config, d: Disk, lh: seq<nat>, vals: seq<Block>)
    requires EmptyLog(c, d) && Loggable(c, lh) && |vals| == |lh|
    ensures var e := CommitState(c, d, lh, vals, CommitWrites(lh));
            && EmptyLog(c, e)
            && (forall i | 0 <= i < |lh| :: e[lh[i]] == vals[i])
            && (forall b: nat | Home(c, b) && b !in lh :: e[b] == d[b])
  {
    hide Word, SetWord, PutHead, Head, LogFilled, Sealed;
    if lh != [] {
      var full := Sealed(c, d, lh, vals);
      SealedDisk(c, d, lh, vals);
      var inst := Installed(c, full, lh, |lh|);
      assert lh[..|lh|] == lh;
      assert CommitState(c, d, lh, vals, CommitWrites(lh)) == HeadWritten(c, inst, []);
    }
  }

  /**
   * The commit point.  A crash within the first |lh| writes of commit() recovers to the home
   * blocks from before the commit; a crash after the header write recovers to those home blocks
   * with every logged block replaced by its new value.  There is no third outcome.
   */
  lemma CrashInCommit(c: Config, d: Disk, lh: seq<nat>, vals: seq<Block>, k: nat)
    requires EmptyLog(c, d) && Loggable(c, lh) && |vals| == |lh| && k <= CommitWrites(lh)
    ensures var e := CommitState(c, d, lh, vals, k);
            && GoodDisk(c, e) && |Recovered(c, e)| == c.blocks
            && (k <= |lh| ==> SameHome(c, Recovered(c, e), d))
            && (k > |lh| ==>
                  && (forall i | 0 <= i < |lh| :: Recovered(c, e)[lh[i]] == vals[i])
                  && (forall b: nat | Home(c, b) && b !in lh :: Recovered(c, e)[b] == d[b]))
  {
    hide Word, SetWord, PutHead, Head, HeadWritten, Installed, Recovered, LogFilled;
    var e := CommitState(c, d, lh, vals, k);
    if lh == [] {
      RecoverEmpty(c, d);
    } else if k <= |lh| {
      CrashBeforeHeader(c, d, vals, k);
    } else if k <= 2 * |lh| + 1 {
      CrashAfterHeader(c, d, lh, vals, k - |lh| - 1);
    } else {
      CommitDone(c, d, lh, vals);
      RecoverEmpty(c, e);
    }
  }
}
