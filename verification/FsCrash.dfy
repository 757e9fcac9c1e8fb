/**
 * The log under the file system: after any crash and recovery the files hold exactly the file writes
 * of the committed groups, each of them whole, and the bitmap and the inodes agree.
 */
module FsCrash {
  import opened Blocks
  import opened RedoLog
  import opened FsLayout
  import opened FsOwnership
  import opened LogCalls
  import opened FsProgram
  import opened FileWrite
  import CrashMachine
  import CrashSafety

  // ---- the file system that a disk holds ----

  /** The inode table. */
  function Table(sb: Super, d: Disk): Inodes
    requires ValidDisk(sb, d)
  {
    map i: nat | i < sb.ninodes :: DIno(sb, d, i)
  }

  /** The bitmap and the inode table agree, and no file has a hole. */
  ghost predicate Sound(sb: Super, d: Disk) {
    && ValidDisk(sb, d)
    && (exists owner :: FsInv(sb, d, Table(sb, d), owner))
    && forall i: nat | i < sb.ninodes :: HoleFree(d, DIno(sb, d, i))
  }

  ghost function Bytes(d: Disk, ino: Ino, n: nat): (r: seq<Byte>)
    requires |ino.addrs| == NDIRECT + 1 && n <= MAXFILE * BSIZE
    ensures |r| == n && forall k | 0 <= k < n :: r[k] == ByteAt(d, ino, k)
  {
    if n == 0 then [] else Bytes(d, ino, n - 1) + [ByteAt(d, ino, n - 1)]
  }

  /** The contents of the files, by inode number. */
  ghost function Files(sb: Super, d: Disk): map<nat, seq<Byte>>
    requires Sound(sb, d)
  {
    map i: nat | i < sb.ninodes :: Bytes(d, DIno(sb, d, i), DIno(sb, d, i).size)
  }

  // ---- one write ----

  /** A write of src at offset off of file i, or the truncation of file i to nothing. */
  datatype FileOp = WriteOp(i: nat, off: nat, src: seq<Byte>) | TruncOp(i: nat)

  function Replaced(s: seq<Byte>, off: nat, src: seq<Byte>): seq<Byte>
    requires off <= |s|
  {
    s[..off] + src + if off + |src| < |s| then s[off + |src|..] else []
  }

  /** What an operation does to the files; writes past the end of a file are refused. */
  function Perform(files: map<nat, seq<Byte>>, w: FileOp): map<nat, seq<Byte>> {
    if w.i !in files then files
    else match w
      case WriteOp(i, off, src) => if off <= |files[i]| then files[i := Replaced(files[i], off, src)] else files
      case TruncOp(i) => files[i := []]
  }

  /** The blocks change as writei() or itrunc() changes them. */
  ghost predicate Writes(sb: Super, h: Disk, h': Disk, w: FileOp) {
    Sound(sb, h) && w.i < sb.ninodes && if w.WriteOp? then WritesFile(sb, h, h', w) else TruncatesFile(sb, h, h', w.i)
  }

  ghost predicate WritesFile(sb: Super, h: Disk, h': Disk, w: FileOp)
    requires Sound(sb, h) && w.i < sb.ninodes && w.WriteOp?
  {
    && w.off <= DIno(sb, h, w.i).size && w.off + |w.src| <= MAXFILE * BSIZE
    && exists inodes, owner, logged0, logged, f ::
         FsInv(sb, h', inodes, owner) && Written(sb, h, Table(sb, h), logged0, h', inodes, logged, f, w.i, w.off, w.src)
  }

  ghost predicate TruncatesFile(sb: Super, h: Disk, h': Disk, i: nat)
    requires Sound(sb, h) && i < sb.ninodes
  {
    exists inodes, owner0, owner :: Truncated(sb, h, Table(sb, h), owner0, h', inodes, owner, i)
  }

  /** What itrunc() has done: the file is empty, its blocks are nobody's, and the other files are as they were. */
  ghost predicate Truncated(sb: Super, d0: Disk, inodes0: Inodes, owner0: map<nat, Owner>,
                            d: Disk, inodes: Inodes, owner: map<nat, Owner>, i: nat)
  {
    && FsInv(sb, d0, inodes0, owner0) && FsInv(sb, d, inodes, owner) && i in inodes0
    && inodes == inodes0[i := inodes0[i].(addrs := seq(NDIRECT + 1, _ => 0), size := 0)]
    && owner == (map b | b in owner0 && owner0[b].inum != i :: owner0[b])
    && OthersSame(d0, inodes0, d, inodes, i)
    && i < sb.ninodes && DIno(sb, d, i) == inodes[i]
    && forall j: nat | j < sb.ninodes && j != i :: DIno(sb, d, j) == DIno(sb, d0, j)
  }

  /** After a write the inode table is what the in-core inodes are. */
  lemma WrittenTable(sb: Super, h: Disk, h': Disk, inodes: Inodes, logged0: set<nat>, logged: set<nat>, f: Footprint,
                     w: FileOp)
    requires w.WriteOp?
    requires Sound(sb, h) && w.i < sb.ninodes && w.off <= DIno(sb, h, w.i).size && w.off + |w.src| <= MAXFILE * BSIZE
    requires Written(sb, h, Table(sb, h), logged0, h', inodes, logged, f, w.i, w.off, w.src)
    ensures ValidDisk(sb, h') && Table(sb, h') == inodes
  {
    hide DIno, HoleFree, FsInv, Wrote, PointersKept, Filled, OnlyTouched, Within;
    HoleFreeWriteThrough(sb, h, Table(sb, h), logged0, h', inodes, logged, f, w.i, w.off, w.src);
    assert forall j: nat | j < sb.ninodes :: DIno(sb, h', j) == inodes[j];
  }

  lemma WrittenParts(sb: Super, h: Disk, h': Disk, logged0: set<nat>, logged: set<nat>, f: Footprint, w: FileOp)
    requires w.WriteOp?
    requires Sound(sb, h) && w.i < sb.ninodes && Sound(sb, h')
    requires Written(sb, h, Table(sb, h), logged0, h', Table(sb, h'), logged, f, w.i, w.off, w.src)
    ensures Wrote(h, Table(sb, h), h', Table(sb, h'), w.i, w.off, w.src)
    ensures DIno(sb, h', w.i).size == Grown(DIno(sb, h, w.i).size, w.off, |w.src|)
    ensures forall j: nat | j < sb.ninodes && j != w.i :: DIno(sb, h', j) == DIno(sb, h, j)
    ensures forall j: nat | j < sb.ninodes ::
              DIno(sb, h, j).size <= MAXFILE * BSIZE && DIno(sb, h', j).size <= MAXFILE * BSIZE
  {
    hide DIno, FsInv, Wrote, PointersKept, Filled, OnlyTouched, Within, Addr;
    forall j: nat | j < sb.ninodes
      ensures DIno(sb, h, j).size <= MAXFILE * BSIZE && DIno(sb, h', j).size <= MAXFILE * BSIZE
    {
      assert HoleFree(h, DIno(sb, h, j)) && HoleFree(h', DIno(sb, h', j));
    }
    assert Table(sb, h)[w.i] == DIno(sb, h, w.i) && Table(sb, h')[w.i] == DIno(sb, h', w.i);
  }

  lemma WrittenFiles(sb: Super, h: Disk, h': Disk, logged0: set<nat>, logged: set<nat>, f: Footprint, w: FileOp)
    requires w.WriteOp?
    requires Sound(sb, h) && w.i < sb.ninodes && w.off <= DIno(sb, h, w.i).size && Sound(sb, h')
    requires Written(sb, h, Table(sb, h), logged0, h', Table(sb, h'), logged, f, w.i, w.off, w.src)
    ensures Files(sb, h') == Perform(Files(sb, h), w)
  {
    hide DIno, FsInv, HoleFree, Written, Wrote, ByteAt, Replaced, Bytes;
    WrittenParts(sb, h, h', logged0, logged, f, w);
    FilesAt(sb, h);
    FilesAt(sb, h');
    forall j: nat | j < sb.ninodes ensures Files(sb, h')[j] == Perform(Files(sb, h), w)[j] {
      WrittenFile(sb, h, h', w, j);
    }
    assert Files(sb, h').Keys == Perform(Files(sb, h), w).Keys;
  }

  lemma FilesAt(sb: Super, d: Disk)
    requires Sound(sb, d)
    ensures forall j: nat :: j in Files(sb, d) <==> j < sb.ninodes
    ensures forall j: nat | j < sb.ninodes ::
              |DIno(sb, d, j).addrs| == NDIRECT + 1 && DIno(sb, d, j).size <= MAXFILE * BSIZE
    ensures forall j: nat | j < sb.ninodes :: Files(sb, d)[j] == Bytes(d, DIno(sb, d, j), DIno(sb, d, j).size)
  {
    hide DIno, FsInv, Addr;
    assert forall j: nat | j < sb.ninodes :: HoleFree(d, DIno(sb, d, j));
  }

  lemma WrittenFile(sb: Super, h: Disk, h': Disk, w: FileOp, j: nat)
    requires w.WriteOp?
    requires ValidDisk(sb, h) && ValidDisk(sb, h') && w.i < sb.ninodes && j < sb.ninodes
    requires Wrote(h, Table(sb, h), h', Table(sb, h'), w.i, w.off, w.src)
    requires w.off <= DIno(sb, h, w.i).size && DIno(sb, h', w.i).size == Grown(DIno(sb, h, w.i).size, w.off, |w.src|)
    requires j != w.i ==> DIno(sb, h', j) == DIno(sb, h, j)
    requires DIno(sb, h, j).size <= MAXFILE * BSIZE && DIno(sb, h', j).size <= MAXFILE * BSIZE
    ensures var s := Bytes(h, DIno(sb, h, j), DIno(sb, h, j).size);
            Bytes(h', DIno(sb, h', j), DIno(sb, h', j).size) == if j == w.i then Replaced(s, w.off, w.src) else s
  {
    hide DIno, ByteAt;
    var ino, ino' := Table(sb, h)[j], Table(sb, h')[j];
    var s, s' := Bytes(h, ino, ino.size), Bytes(h', ino', ino'.size);
    forall o: nat | o < MAXFILE * BSIZE
      ensures ByteAt(h', ino', o) ==
              if j == w.i && w.off <= o < w.off + |w.src| then w.src[o - w.off] else ByteAt(h, ino, o)
    {
    }
    if j == w.i {
      ReplacedIs(s, s', w.off, w.src);
    } else {
      assert s' == s;
    }
  }

  lemma ReplacedIs(s: seq<Byte>, s': seq<Byte>, off: nat, src: seq<Byte>)
    requires off <= |s| && |s'| == Grown(|s|, off, |src|)
    requires forall o: nat | o < |s'| ::
               s'[o] == if off <= o < off + |src| then src[o - off] else if o < |s| then s[o] else s'[o]
    ensures s' == Replaced(s, off, src)
  {
  }

  // ---- one truncation ----

  /** The inode table is what the in-core inodes are, and no other inode lost a pointer. */
  lemma TruncatedTable(sb: Super, h: Disk, h': Disk, inodes: Inodes, owner0: map<nat, Owner>, owner: map<nat, Owner>,
                       i: nat)
    requires Sound(sb, h) && Truncated(sb, h, Table(sb, h), owner0, h', inodes, owner, i)
    ensures ValidDisk(sb, h') && Table(sb, h') == inodes && Sound(sb, h')
  {
    hide DIno, Addr, Marks, OthersSame, HoleFree;
    assert forall j: nat | j < sb.ninodes :: DIno(sb, h', j) == inodes[j];
    assert Table(sb, h') == inodes;
    forall j: nat | j < sb.ninodes ensures HoleFree(h', DIno(sb, h', j)) {
      TruncatedHoleFree(sb, h, Table(sb, h), owner0, h', inodes, owner, i, j);
    }
  }

  lemma TruncatedHoleFree(sb: Super, d0: Disk, inodes0: Inodes, owner0: map<nat, Owner>, d: Disk, inodes: Inodes,
                          owner: map<nat, Owner>, i: nat, j: nat)
    requires Truncated(sb, d0, inodes0, owner0, d, inodes, owner, i) && j in inodes0 && HoleFree(d0, inodes0[j])
    ensures HoleFree(d, inodes[j])
  {
    hide DIno, Addr, Marks, OthersSame;
    if j != i {
      forall bn: nat | bn * BSIZE < inodes[j].size && bn < MAXFILE ensures Addr(d, inodes[j], DataSlot(bn)) != 0 {
        var a := Addr(d0, inodes0[j], DataSlot(bn));
        assert a != 0 && a in owner0 && owner0[a] == Owner(j, DataSlot(bn));
        assert a in owner && owner[a] == Owner(j, DataSlot(bn));
      }
    }
  }

  lemma TruncatedFiles(sb: Super, h: Disk, h': Disk, owner0: map<nat, Owner>, owner: map<nat, Owner>, i: nat)
    requires Sound(sb, h) && Sound(sb, h') && Truncated(sb, h, Table(sb, h), owner0, h', Table(sb, h'), owner, i)
    ensures Files(sb, h') == Perform(Files(sb, h), TruncOp(i))
  {
    hide FsInv, DIno, HoleFree, ByteAt, Bytes, Replaced;
    FilesAt(sb, h);
    FilesAt(sb, h');
    forall j: nat | j < sb.ninodes ensures Files(sb, h')[j] == if j == i then [] else Files(sb, h)[j] {
      var ino, ino' := Table(sb, h)[j], Table(sb, h')[j];
      if j != i {
        assert forall o: nat | o < MAXFILE * BSIZE :: ByteAt(h', ino', o) == ByteAt(h, ino, o);
        assert Bytes(h', ino', ino'.size) == Bytes(h, ino, ino.size);
      } else {
        assert Bytes(h', ino', 0) == [];
      }
    }
    assert Files(sb, h').Keys == Perform(Files(sb, h), TruncOp(i)).Keys;
  }

  /** One operation takes sound blocks to sound blocks and does to the files what it should. */
  lemma WriteEffect(sb: Super, h: Disk, h': Disk, w: FileOp)
    requires Writes(sb, h, h', w)
    ensures Sound(sb, h') && Files(sb, h') == Perform(Files(sb, h), w)
  {
    hide DIno, HoleFree, FsInv, Written, Perform, Truncated;
    if w.WriteOp? {
      var inodes, owner, logged0, logged, f :|
        FsInv(sb, h', inodes, owner) && Written(sb, h, Table(sb, h), logged0, h', inodes, logged, f, w.i, w.off, w.src);
      WrittenTable(sb, h, h', inodes, logged0, logged, f, w);
      forall j: nat | j < sb.ninodes ensures HoleFree(h', DIno(sb, h', j)) {
        WrittenHoleFree(sb, h, Table(sb, h), logged0, h', inodes, logged, f, w.i, w.off, w.src, j);
      }
      WrittenFiles(sb, h, h', logged0, logged, f, w);
    } else {
      var inodes, owner0, owner :| Truncated(sb, h, Table(sb, h), owner0, h', inodes, owner, w.i);
      TruncatedTable(sb, h, h', inodes, owner0, owner, w.i);
      TruncatedFiles(sb, h, h', owner0, owner, w.i);
    }
  }

  // ---- the log is apart ----

  /** mkfs puts the log before the inode table. */
  ghost predicate LogApart(c: Config, sb: Super) {
    ValidConfig(c) && ValidSuper(sb) && c.blocks == sb.size && c.start + c.size <= sb.inodestart
  }

  lemma SameInodeTable(c: Config, sb: Super, d: Disk, e: Disk)
    requires LogApart(c, sb) && ValidDisk(sb, d) && SameHome(c, d, e)
    ensures ValidDisk(sb, e) && (forall b | sb.bmapstart <= b < sb.size :: e[b] == d[b])
    ensures forall i: nat | i < sb.ninodes :: DIno(sb, e, i) == DIno(sb, d, i)
  {
    hide InoAt;
    assert forall b: nat | sb.inodestart <= b < sb.size :: Home(c, b) && e[b] == d[b];
  }

  lemma FileKept(d: Disk, e: Disk, inodes: Inodes, i: nat)
    requires PointersKept(d, inodes, e, inodes) && SameFiles(d, inodes, e, inodes) && i in inodes &&
             HoleFree(d, inodes[i])
    ensures HoleFree(e, inodes[i]) && Bytes(e, inodes[i], inodes[i].size) == Bytes(d, inodes[i], inodes[i].size)
  {
    hide Addr, ByteAt;
    forall k | 0 <= k < inodes[i].size
      ensures Bytes(e, inodes[i], inodes[i].size)[k] == Bytes(d, inodes[i], inodes[i].size)[k]
    {
      assert ByteAt(e, inodes[i], k) == ByteAt(d, inodes[i], k);
    }
  }

  /** The files are in blocks with a home location. */
  lemma HomeDecides(c: Config, sb: Super, d: Disk, e: Disk)
    requires LogApart(c, sb) && Sound(sb, d) && SameHome(c, d, e)
    ensures Sound(sb, e) && Files(sb, e) == Files(sb, d)
  {
    hide FsInv, DIno, HoleFree, Bytes, SameFiles, PointersKept, SameHome, LogApart;
    SameInodeTable(c, sb, d, e);
    var inodes := Table(sb, d);
    var owner :| FsInv(sb, d, inodes, owner);
    assert Table(sb, e) == inodes;
    ChangeInodeTable(sb, d, inodes, owner, e);
    forall i: nat | i < sb.ninodes
      ensures HoleFree(e, DIno(sb, e, i)) && |DIno(sb, d, i).addrs| == NDIRECT + 1 &&
              DIno(sb, d, i).size <= MAXFILE * BSIZE
      ensures Bytes(e, DIno(sb, e, i), DIno(sb, e, i).size) == Bytes(d, DIno(sb, d, i), DIno(sb, d, i).size)
    {
      FilesAt(sb, d);
      FileKept(d, e, inodes, i);
    }
    FilesAt(sb, d);
    FilesAt(sb, e);
  }

  // ---- many writes ----

  /** The home blocks change as writei() changes them; the blocks of the log may be anything. */
  ghost predicate HomeWrites(c: Config, sb: Super, h: Disk, h': Disk, w: FileOp) {
    exists d, d' :: SameHome(c, d, h) && SameHome(c, d', h') && Writes(sb, d, d', w)
  }

  lemma HomeEffect(c: Config, sb: Super, h: Disk, h': Disk, w: FileOp)
    requires LogApart(c, sb) && HomeWrites(c, sb, h, h', w)
    ensures Sound(sb, h) && Sound(sb, h') && Files(sb, h') == Perform(Files(sb, h), w)
  {
    hide Sound, Files, Writes, Perform, SameHome, LogApart;
    var d, d' :| SameHome(c, d, h) && SameHome(c, d', h') && Writes(sb, d, d', w);
    WritesSound(sb, d, d', w);
    WriteEffect(sb, d, d', w);
    HomeDecides(c, sb, d, h);
    HomeDecides(c, sb, d', h');
  }

  lemma WritesSound(sb: Super, d: Disk, d': Disk, w: FileOp)
    requires Writes(sb, d, d', w)
    ensures Sound(sb, d)
  {
  }

  /** The home blocks change as the writes ws change them, one after the other. */
  ghost predicate Does(c: Config, sb: Super, h: Disk, h': Disk, ws: seq<FileOp>)
    decreases |ws|
  {
    if ws == [] then h' == h
    else
      var rest, w := ws[..|ws| - 1], ws[|ws| - 1];
      exists m :: Does(c, sb, h, m, rest) && HomeWrites(c, sb, m, h', w)
  }

  function PerformAll(files: map<nat, seq<Byte>>, ws: seq<FileOp>): map<nat, seq<Byte>> {
    if ws == [] then files else Perform(PerformAll(files, ws[..|ws| - 1]), ws[|ws| - 1])
  }

  lemma {:induction false} DoesEffect(c: Config, sb: Super, h: Disk, h': Disk, ws: seq<FileOp>)
    requires LogApart(c, sb) && Sound(sb, h) && Does(c, sb, h, h', ws)
    ensures Sound(sb, h') && Files(sb, h') == PerformAll(Files(sb, h), ws)
    decreases |ws|
  {
    hide Sound, Files, HomeWrites, Perform, LogApart;
    if ws != [] {
      var rest, w := ws[..|ws| - 1], ws[|ws| - 1];
      var m :| Does(c, sb, h, m, rest) && HomeWrites(c, sb, m, h', w);
      DoesEffect(c, sb, h, m, rest);
      HomeEffect(c, sb, m, h', w);
    }
  }

  lemma DoesMore(c: Config, sb: Super, h: Disk, m: Disk, h': Disk, ws: seq<FileOp>, w: FileOp)
    requires Does(c, sb, h, m, ws) && HomeWrites(c, sb, m, h', w)
    ensures Does(c, sb, h, h', ws + [w])
  {
    hide HomeWrites;
    assert (ws + [w])[..|ws|] == ws;
  }

  /** Group k of gs, applied to what the groups before it left, does the writes ops[k]. */
  ghost predicate GroupsDo(c: Config, sb: Super, base: Disk, gs: seq<CrashMachine.Group>, ops: seq<seq<FileOp>>) {
    |ops| == |gs| && forall k: nat | k < |gs| :: GroupDoes(c, sb, base, gs, k, ops[k])
  }

  ghost predicate GroupDoes(c: Config, sb: Super, base: Disk, gs: seq<CrashMachine.Group>, k: nat, ws: seq<FileOp>)
    requires k < |gs|
  {
    Does(c, sb, CrashMachine.Effect(base, gs[..k]), CrashMachine.Effect(base, gs[..k + 1]), ws)
  }

  function PerformGroups(files: map<nat, seq<Byte>>, ops: seq<seq<FileOp>>): map<nat, seq<Byte>> {
    if ops == [] then files else PerformAll(PerformGroups(files, ops[..|ops| - 1]), ops[|ops| - 1])
  }

  lemma GroupsPrefix(c: Config, sb: Super, base: Disk, gs: seq<CrashMachine.Group>, ops: seq<seq<FileOp>>, n: nat)
    requires GroupsDo(c, sb, base, gs, ops) && n <= |gs|
    ensures GroupsDo(c, sb, base, gs[..n], ops[..n])
  {
    hide Does;
    forall k: nat | k < n ensures GroupDoes(c, sb, base, gs[..n], k, ops[..n][k]) {
      assert GroupDoes(c, sb, base, gs, k, ops[k]);
      assert gs[..n][..k] == gs[..k] && gs[..n][..k + 1] == gs[..k + 1];
    }
  }

  lemma GroupsMore(c: Config, sb: Super, base: Disk, gs: seq<CrashMachine.Group>, ops: seq<seq<FileOp>>,
                   g: CrashMachine.Group, ws: seq<FileOp>)
    requires GroupsDo(c, sb, base, gs, ops)
    requires Does(c, sb, CrashMachine.Effect(base, gs), CrashMachine.Apply(CrashMachine.Effect(base, gs), g.writes), ws)
    ensures GroupsDo(c, sb, base, gs + [g], ops + [ws])
  {
    hide Does, CrashMachine.Apply;
    CrashSafety.EffectSnoc(base, gs, g);
    forall k: nat | k < |gs| + 1 ensures GroupDoes(c, sb, base, gs + [g], k, (ops + [ws])[k]) {
      if k < |gs| {
        assert GroupDoes(c, sb, base, gs, k, ops[k]);
        assert (gs + [g])[..k] == gs[..k] && (gs + [g])[..k + 1] == gs[..k + 1];
      } else {
        assert (gs + [g])[..k] == gs && (gs + [g])[..k + 1] == gs + [g];
      }
    }
  }

  lemma {:induction false} GroupsEffect(c: Config, sb: Super, base: Disk, gs: seq<CrashMachine.Group>,
                                        ops: seq<seq<FileOp>>)
    requires LogApart(c, sb) && Sound(sb, base) && GroupsDo(c, sb, base, gs, ops)
    ensures var h := CrashMachine.Effect(base, gs); Sound(sb, h) && Files(sb, h) == PerformGroups(Files(sb, base), ops)
    decreases |gs|
  {
    hide Sound, Files, Does, PerformAll, LogApart;
    if gs != [] {
      var n := |gs| - 1;
      GroupsPrefix(c, sb, base, gs, ops, n);
      GroupsEffect(c, sb, base, gs[..n], ops[..n]);
      assert GroupDoes(c, sb, base, gs, n, ops[n]) && gs[..n + 1] == gs;
      DoesEffect(c, sb, CrashMachine.Effect(base, gs[..n]), CrashMachine.Effect(base, gs), ops[n]);
    }
  }

  // ---- crashes ----

  /**
   * In every state of every run, with crashes anywhere and recoveries cut short any number of times:
   * what recovery makes of the disk now is a sound file system, and its files are those that the writes
   * of the committed groups make, in order, of the files at the start.
   */
  lemma FilesSurviveCrashes(c: Config, sb: Super, base: Disk, run: seq<CrashMachine.State>, n: nat,
                            ops: seq<seq<FileOp>>)
    requires CrashMachine.Run(c, base, run) && n < |run| && LogApart(c, sb) && Sound(sb, base)
    requires GroupsDo(c, sb, base, run[n].groups, ops)
    ensures var s := run[n];
            && GoodDisk(c, s.disk) && Sound(sb, Recovered(c, s.disk)) && s.acked <= |ops|
            && Files(sb, Recovered(c, s.disk)) == PerformGroups(Files(sb, base), ops)
  {
    hide Sound, Files, GoodDisk, Recovered, CrashMachine.Run, GroupDoes, LogApart;
    CrashSafety.CrashAtomicity(c, base, run, n);
    var h := CrashMachine.Effect(base, run[n].groups);
    GroupsEffect(c, sb, base, run[n].groups, ops);
    HomeDecides(c, sb, h, Recovered(c, run[n].disk));
  }

  /**
   * The same while the system runs: what bread() shows is a sound file system with the writes of the
   * committed groups and those that the open group has done.
   */
  lemma FilesWhileRunning(c: Config, sb: Super, base: Disk, run: seq<CrashMachine.State>, n: nat,
                          ops: seq<seq<FileOp>>, open: seq<FileOp>)
    requires CrashMachine.Run(c, base, run) && n < |run| && run[n].up && LogApart(c, sb) && Sound(sb, base)
    requires GroupsDo(c, sb, base, run[n].groups, ops)
    requires var h := CrashMachine.Effect(base, run[n].groups);
             Does(c, sb, h, CrashMachine.Apply(h, run[n].cur.writes), open)
    ensures var view := CrashMachine.View(run[n].disk, run[n].cache);
            Sound(sb, view) && Files(sb, view) == PerformAll(PerformGroups(Files(sb, base), ops), open)
  {
    hide Sound, Files, CrashMachine.Run, CrashMachine.View, GroupDoes, Does, LogApart, PerformAll;
    CrashSafety.RunningView(c, base, run, n);
    var h := CrashMachine.Effect(base, run[n].groups);
    var h' := CrashMachine.Apply(h, run[n].cur.writes);
    GroupsEffect(c, sb, base, run[n].groups, ops);
    DoesEffect(c, sb, h, h', open);
    HomeDecides(c, sb, h', CrashMachine.View(run[n].disk, run[n].cache));
  }

  /** A writei() that completes, on a sound file system whose inodes are all in core, is such a write. */
  method WriteFile(fs: Fs, i: nat, src: seq<Byte>, off: nat) returns (r: IoResult)
    requires fs.Valid() && Sound(fs.sb, fs.d) && fs.inodes == Table(fs.sb, fs.d) && i in fs.inodes
    requires off < WORD_LIMIT && |src| < WORD_LIMIT
    modifies fs`d, fs`inodes, fs`owner, fs`logged, fs`calls
    ensures r == Device <==> old(fs.IsDevice(i))
    ensures r == Fail <==>
              !old(fs.IsDevice(i)) && (off > old(fs.inodes)[i].size || off + |src| > MAXFILE * BSIZE)
    ensures r == Panic <==> !old(fs.IsDevice(i)) && NoRoom(fs.sb, old(fs.d), old(fs.inodes)[i], off, |src|)
    ensures r.Count? ==>
              && fs.Valid() && Writes(fs.sb, old(fs.d), fs.d, WriteOp(i, off, src)) && fs.inodes == Table(fs.sb, fs.d)
              && r.n == |src|
    ensures r.Count? && |src| <= MAXWRITE && old(fs.logged) == {} ==> |fs.logged| <= MAXOPBLOCKS
    ensures r == Fail || r == Device ==>
              fs.Valid() && fs.d == old(fs.d) && fs.inodes == old(fs.inodes) && fs.calls == old(fs.calls)
    ensures r == Panic ==> DiskFull(fs.sb, fs.d)
  {
    hide FsInv, DIno, HoleFree, Written, NoRoom, DiskFull, Traced, Inside;
    assert HoleFree(fs.d, fs.inodes[i]);
    ghost var f;
    ghost var logged0 := fs.logged;
    r, f := fs.Writei(i, src, off);
    if r.Count? {
      WrittenTable(fs.sb, old(fs.d), fs.d, fs.inodes, logged0, fs.logged, f, WriteOp(i, off, src));
      if |src| <= MAXWRITE {
        TransactionFits(fs.sb, old(fs.d), old(fs.inodes), logged0, fs.d, fs.inodes, fs.logged, f, i, off, src);
        assert {} + All(f) == All(f);
      }
    }
  }

  /** An itrunc(), on the same, is such an operation. */
  method TruncFile(fs: Fs, i: nat)
    requires fs.Valid() && Sound(fs.sb, fs.d) && fs.inodes == Table(fs.sb, fs.d) && i in fs.inodes
    modifies fs`d, fs`inodes, fs`owner, fs`logged, fs`calls
    ensures fs.Valid() && Writes(fs.sb, old(fs.d), fs.d, TruncOp(i)) && fs.inodes == Table(fs.sb, fs.d)
    ensures old(fs.logged) == {} && fs.sb.size < 9 * BPB ==> |fs.logged| <= MAXOPBLOCKS
  {
    hide FsInv, DIno, HoleFree, OthersSame, Traced, Inside, MapBlocks;
    ghost var owner0 := fs.owner;
    InvShape(fs.sb, fs.d, fs.inodes, fs.owner);
    var _ := fs.Itrunc(i);
    assert Truncated(fs.sb, old(fs.d), old(fs.inodes), owner0, fs.d, fs.inodes, fs.owner, i);
    TruncatedTable(fs.sb, old(fs.d), fs.d, fs.inodes, owner0, fs.owner, i);
    if old(fs.logged) == {} {
      assert {} + {IBlock(fs.sb, i)} + MapBlocks(fs.sb) == {IBlock(fs.sb, i)} + MapBlocks(fs.sb);
      TruncFits(fs.sb, i, fs.logged);
    }
  }
}
