/**
 * pipe.c: the bounded byte ring between processes.  A method is what one process does between taking
 * p->lock and giving it up, either in sleep() or on return, so calls of any number of readers and
 * writers interleave.
 */
module Pipe {
  import Blocks

  const PIPESIZE: nat := 512
  const UINT: nat := 0x1_0000_0000

  type Byte = Blocks.Byte
  type Pid = nat

  /** pipewrite() up to its next sleep or return: the count it has reached, or its -1. */
  datatype WriteOutcome = WriterSleeps(i: nat) | Wrote | WriteFailed

  datatype ReadOutcome = ReaderSleeps | Read(bytes: seq<Byte>) | ReadFailed

  /** 512 divides the counter range, so a wrapped counter still names the right byte. */
  lemma WrapKeepsSlot(x: nat)
    ensures x % UINT % PIPESIZE == x % PIPESIZE
  {
  }

  lemma WrapSucc(x: nat)
    ensures (x % UINT + 1) % UINT == (x + 1) % UINT
  {
  }

  /** Bytes less than 512 apart lie in different slots. */
  lemma DifferentSlots(a: nat, b: nat)
    requires a < b < a + PIPESIZE
    ensures a % PIPESIZE != b % PIPESIZE
  {
  }

  class Pipe {
    const data: array<Byte>
    var nread: nat
    var nwrite: nat
    var readopen: bool
    var writeopen: bool
    var readers: set<Pid>     // asleep on &p->nread
    var writers: set<Pid>     // asleep on &p->nwrite
    ghost var stored: seq<Byte>
    ghost var taken: seq<Byte>

    /** What was read is a prefix of what was written, and the unread rest, at most 512 bytes, is in the ring. */
    ghost predicate RingOk()
      reads this, data
    {
      && data.Length == PIPESIZE
      && taken <= stored && |stored| - |taken| <= PIPESIZE
      && nread == |taken| % UINT && nwrite == |stored| % UINT
      && forall j | |taken| <= j < |stored| :: data[j % PIPESIZE] == stored[j]
    }

    ghost predicate Full()
      reads this
    {
      |stored| == |taken| + PIPESIZE
    }

    ghost predicate Empty()
      reads this
    {
      |stored| == |taken|
    }

    /** A sleeping writer means a full pipe that is still open for reading. */
    ghost predicate WritersOk()
      reads this
    {
      writers != {} ==> Full() && readopen
    }

    /** A sleeping reader means an empty pipe that is still open for writing. */
    ghost predicate ReadersOk()
      reads this
    {
      readers != {} ==> Empty() && writeopen
    }

    ghost predicate Valid()
      reads this, data
    {
      RingOk() && WritersOk()
    }

    /** pipealloc()'s initialisation. */
    constructor ()
      ensures Valid() && fresh(data) && readopen && writeopen && stored == taken == [] && readers == writers == {}
    {
      data := new Byte[PIPESIZE](_ => 0);
      nread, nwrite, readopen, writeopen := 0, 0, true, true;
      readers, writers, stored, taken := {}, {}, [], [];
    }

    /** The counters tell empty and full apart although they wrap. */
    lemma Counters()
      requires RingOk()
      ensures nread == nwrite <==> Empty()
      ensures nwrite == (nread + PIPESIZE) % UINT <==> Full()
    {
    }

    /** p->data[p->nwrite++ % PIPESIZE] = c */
    method Put(c: Byte)
      requires RingOk() && !Full()
      modifies this`nwrite, this`stored, data
      ensures RingOk() && stored == old(stored) + [c]
    {
      WrapKeepsSlot(|stored|);
      forall j | |taken| <= j < |stored| ensures j % PIPESIZE != |stored| % PIPESIZE {
        DifferentSlots(j, |stored|);
      }
      WrapSucc(|stored|);
      ghost var slot := |stored| % PIPESIZE;
      assert nwrite % PIPESIZE == slot;
      assert forall j | |taken| <= j < |stored| :: j % PIPESIZE != slot;
      data[nwrite % PIPESIZE] := c;
      nwrite := (nwrite + 1) % UINT;
      stored := stored + [c];
    }

    /** p->data[p->nread++ % PIPESIZE] */
    method Get() returns (c: Byte)
      requires RingOk() && !Empty()
      modifies this`nread, this`taken
      ensures RingOk() && taken == old(taken) + [c]
    {
      WrapKeepsSlot(|taken|);
      WrapSucc(|taken|);
      assert data[|taken| % PIPESIZE] == stored[|taken|];
      assert taken + [stored[|taken|]] <= stored;
      c := data[nread % PIPESIZE];
      nread := (nread + 1) % UINT;
      taken := taken + [c];
    }

    /**
     * pipewrite() by pid from byte i of addr on: it stores bytes until the pipe is full or addr is done.
     * killed is pid's flag at the one moment when the pipe is found full; the call then fails or sleeps.
     */
    method PipeWrite(pid: Pid, addr: seq<Byte>, i0: nat, killed: bool) returns (r: WriteOutcome)
      requires Valid() && i0 <= |addr| && pid !in writers
      modifies this`nwrite, this`stored, this`readers, this`writers, data
      ensures Valid()
      ensures |old(stored)| <= |stored| <= |old(stored)| + |addr| - i0
      ensures var k := |stored| - |old(stored)|;
              && stored == old(stored) + addr[i0..i0 + k]
              && (r == Wrote <==> k == |addr| - i0)
              && (r != Wrote ==> Full() && |stored| == |taken| + 512)
              && (r.WriterSleeps? ==> r.i == i0 + k)
      ensures r == WriteFailed <==> r != Wrote && (!readopen || killed)
      ensures writers == (if r.WriterSleeps? then old(writers) + {pid} else old(writers))
      ensures readers == (if r == WriteFailed then old(readers) else {})
      ensures old(ReadersOk()) && (old(readers) != {} ==> readopen) ==>
                (ReadersOk() <==> !(old(readers) != {} && killed && |addr| - i0 > PIPESIZE))
    {
      var i := i0;
      while i < |addr|
        invariant i0 <= i <= |addr| && RingOk() && stored == old(stored) + addr[i0..i]
        invariant writers == old(writers) && readers == old(readers) && (i > i0 ==> writers == {})
        invariant i == i0 ==> stored == old(stored)
        decreases |addr| - i
      {
        Counters();
        if nwrite == (nread + PIPESIZE) % UINT {
          if !readopen || killed {
            return WriteFailed;
          }
          readers := {};
          writers := writers + {pid};
          return WriterSleeps(i);
        }
        Put(addr[i]);
        assert addr[i0..i + 1] == addr[i0..i] + [addr[i]];
        i := i + 1;
      }
      readers := {};
      r := Wrote;
    }

    /** piperead() by pid of at most n bytes. */
    method PipeRead(pid: Pid, n: nat, killed: bool) returns (r: ReadOutcome)
      requires Valid() && pid !in readers
      modifies this`nread, this`taken, this`readers, this`writers
      ensures Valid()
      ensures r == ReaderSleeps <==> |stored| == |old(taken)| && writeopen && !killed
      ensures r == ReadFailed <==> |stored| == |old(taken)| && writeopen && killed
      ensures !r.Read? ==> taken == old(taken) && writers == old(writers)
      ensures readers == (if r == ReaderSleeps then old(readers) + {pid} else old(readers))
      ensures old(ReadersOk()) ==> ReadersOk()
      ensures r.Read? ==>
                && taken == old(taken) + r.bytes && writers == {}
                && |r.bytes| == (if n <= |stored| - |old(taken)| then n else |stored| - |old(taken)|)
    {
      Counters();
      if nread == nwrite && writeopen {
        if killed {
          return ReadFailed;
        }
        readers := readers + {pid};
        return ReaderSleeps;
      }
      var bytes: seq<Byte> := [];
      var i := 0;
      while i < n
        invariant i <= n && |bytes| == i && RingOk() && taken == old(taken) + bytes
        invariant writers == old(writers) && readers == old(readers)
      {
        Counters();
        if nread == nwrite {
          break;
        }
        var c := Get();
        bytes := bytes + [c];
        i := i + 1;
      }
      writers := {};
      r := Read(bytes);
    }

    /** pipeclose() of the write end or of the read end, by its last user; true if the pipe is freed. */
    method PipeClose(writable: bool) returns (freed: bool)
      requires Valid()
      modifies this`readopen, this`writeopen, this`readers, this`writers
      ensures Valid()
      ensures writable ==> !writeopen && readopen == old(readopen) && readers == {} && writers == old(writers)
      ensures !writable ==> !readopen && writeopen == old(writeopen) && writers == {} && readers == old(readers)
      ensures freed <==> !readopen && !writeopen
      ensures old(ReadersOk()) ==> ReadersOk()
    {
      if writable {
        writeopen := false;
        readers := {};
      } else {
        readopen := false;
        writers := {};
      }
      freed := !readopen && !writeopen;
    }

    /** kill() of a process asleep in the pipe: it runs again. */
    method Kill(pid: Pid)
      requires Valid()
      modifies this`readers, this`writers
      ensures Valid() && readers == old(readers) - {pid} && writers == old(writers) - {pid}
      ensures old(ReadersOk()) ==> ReadersOk()
    {
      readers, writers := readers - {pid}, writers - {pid};
    }
  }

  /**
   * A killed writer can strand a reader: reader 1 sleeps on the empty pipe, writer 2, already killed,
   * stores 512 of its bytes and returns -1 at the full pipe without waking it.
   */
  method KilledWriterStrandsReader(addr: seq<Byte>) returns (p: Pipe)
    requires |addr| > PIPESIZE
    ensures fresh(p) && p.Valid() && 1 in p.readers && p.Full() && !p.ReadersOk()
  {
    p := new Pipe();
    var r := p.PipeRead(1, 1, false);
    var w := p.PipeWrite(2, addr, 0, true);
  }
}
