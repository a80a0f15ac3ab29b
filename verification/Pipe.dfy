/**
 Pipes: a ring of 512 bytes with 32-bit counters that wrap, and the processes asleep on either end.

 A method is one stay inside the pipe's lock, from `acquire` to `release` or to the `sleep` that
 gives the lock up; a process that is woken calls it again. A process inside `piperead` or
 `pipewrite` has its end of the pipe open.
 */
module PipeCode {
  import opened Wrappers
  import opened Blocks

  const PIPESIZE: nat := 512

  datatype WriteOutcome = WroteAll | WriterSleeps | WriteFailed

  datatype ReadOutcome = ReadSome | ReaderSleeps | ReadFailed

  /** A counter after one more byte. */
  function Next(n: Uint32): Uint32 { (n + 1) % TWO32 }

  /** 512 divides 2 to the 32nd: the place in the ring survives the wrap. */
  lemma WrapKeepsPlace(n: nat)
    ensures n % TWO32 % PIPESIZE == n % PIPESIZE
  {
    var q := n / TWO32;
    assert n == q * TWO32 + n % TWO32;
    assert n == n % TWO32 + q * 8388608 * PIPESIZE;
  }

  lemma NextCount(n: nat)
    ensures Next(n % TWO32) == (n + 1) % TWO32
  {
  }

  /** Fewer than 512 bytes apart, two bytes have different places. */
  lemma OtherPlace(k: nat, n: nat)
    requires k < n < k + PIPESIZE
    ensures k % PIPESIZE != n % PIPESIZE
  {
  }

  class Pipe {
    const data: array<Byte>
    var nread: Uint32
    var nwrite: Uint32
    var readopen: bool
    var writeopen: bool
    /** The processes asleep on `&nread` and on `&nwrite`. */
    var readers: set<nat>
    var writers: set<nat>
    /** All bytes written into the pipe so far, and all bytes read from it. */
    ghost var sent: seq<Byte>
    ghost var got: seq<Byte>

    /** What was read is what was written first; the rest is in the ring, and it is at most 512 bytes. */
    ghost predicate Valid()
      reads this, data
    {
      && data.Length == PIPESIZE
      && |got| <= |sent| <= |got| + PIPESIZE && got == sent[..|got|]
      && nread == |got| % TWO32 && nwrite == |sent| % TWO32
      && forall k: nat :: |got| <= k < |sent| ==> data[k % PIPESIZE] == sent[k]
    }

    ghost predicate Empty()
      reads this
    {
      |sent| == |got|
    }

    /** How many bytes still go in. */
    ghost function Room(): int
      reads this
    {
      PIPESIZE - (|sent| - |got|)
    }

    ghost predicate Full()
      reads this
    {
      |sent| == |got| + PIPESIZE
    }

    /** While the lock is free: who sleeps has a reason to. */
    ghost predicate SleepersOk()
      reads this
    {
      && (readers != {} ==> Empty() && readopen && writeopen)
      && (writers != {} ==> Full() && readopen && writeopen)
    }

    /** pipealloc. */
    constructor ()
      ensures Valid() && SleepersOk() && sent == [] && got == [] && readopen && writeopen && fresh(data)
      ensures readers == {} && writers == {}
    {
      data := new Byte[PIPESIZE];
      nread, nwrite, readopen, writeopen := 0, 0, true, true;
      readers, writers, sent, got := {}, {}, [], [];
    }

    /** The counters tell an empty ring and a full one, although they wrap. */
    lemma CountersTell()
      requires Valid()
      ensures nread == nwrite <==> Empty()
      ensures nwrite == (nread + PIPESIZE) % TWO32 <==> Full()
      ensures nwrite % PIPESIZE == |sent| % PIPESIZE && nread % PIPESIZE == |got| % PIPESIZE
    {
      WrapKeepsPlace(|sent|);
      WrapKeepsPlace(|got|);
    }

    /** One turn of the loop of pipewrite puts a byte. */
    method Put(b: Byte)
      requires Valid() && !Full()
      modifies this`nwrite, this`sent, data
      ensures Valid() && sent == old(sent) + [b]
    {
      CountersTell();
      NextCount(|sent|);
      forall k: nat | |got| <= k < |sent|
        ensures k % PIPESIZE != nwrite % PIPESIZE
      {
        OtherPlace(k, |sent|);
      }
      data[nwrite % PIPESIZE] := b;
      nwrite := Next(nwrite);
      sent := sent + [b];
    }

    /** One turn of the loop of piperead takes one. */
    method Take() returns (b: Byte)
      requires Valid() && !Empty()
      modifies this`nread, this`got
      ensures Valid() && got == old(got) + [b]
    {
      CountersTell();
      NextCount(|got|);
      b := data[nread % PIPESIZE];
      nread := Next(nread);
      got := got + [b];
    }

    /**
     pipewrite, from byte `i0` on. A write fails if the bytes do not fit and the process is killed or
     nobody reads any more. It then has not woken the readers: if some were asleep, they had reason
     to, and now they sleep beside a full pipe.
     */
    method Write(me: nat, killed: bool, addr: seq<Byte>, i0: nat) returns (outcome: WriteOutcome, i: nat)
      requires Valid() && writeopen && i0 <= |addr| && me !in writers
      modifies this`nwrite, this`readers, this`writers, this`sent, data
      ensures Valid() && i0 <= i <= |addr| && sent == old(sent) + addr[i0..i]
      ensures outcome.WriteFailed? <==> |addr| - i0 > old(Room()) && (killed || !readopen)
      ensures outcome.WriterSleeps? <==> |addr| - i0 > old(Room()) && !killed && readopen
      ensures i == if |addr| - i0 > old(Room()) then i0 + old(Room()) else |addr|
      ensures writers == old(writers) + if outcome.WriterSleeps? then {me} else {}
      ensures readers == if outcome.WriteFailed? then old(readers) else {}
      ensures old(SleepersOk()) ==> (SleepersOk() <==> !(old(readers) != {} && killed && |addr| - i0 > PIPESIZE))
    {
      i := i0;
      while i < |addr|
        invariant Valid() && i0 <= i <= |addr| && sent == old(sent) + addr[i0..i]
        invariant readers == old(readers) && writers == old(writers) && got == old(got)
      {
        CountersTell();
        if nwrite == (nread + PIPESIZE) % TWO32 {
          if !readopen || killed {
            return WriteFailed, i;
          }
          readers := {};
          writers := writers + {me};
          return WriterSleeps, i;
        }
        assert addr[i0..i + 1] == addr[i0..i] + [addr[i]];
        Put(addr[i]);
        i := i + 1;
      }
      readers := {};
      return WroteAll, i;
    }

    /** piperead: what is there, but not more than `n` bytes; nothing only at the end of the data. */
    method Read(me: nat, killed: bool, n: nat) returns (outcome: ReadOutcome, addr: seq<Byte>)
      requires Valid() && readopen && me !in readers
      modifies this`nread, this`readers, this`writers, this`got
      ensures Valid() && got == old(got) + addr && |addr| <= n
      ensures old(SleepersOk()) ==> SleepersOk()
      ensures addr == sent[|old(got)|..|got|]
      ensures outcome.ReadSome? ==> (|addr| == n || Empty()) && writers == {}
      ensures outcome.ReadSome? && addr == [] && n > 0 ==> old(Empty()) && !writeopen
      ensures outcome.ReaderSleeps? <==> old(Empty()) && writeopen && !killed
      ensures outcome.ReadFailed? <==> old(Empty()) && writeopen && killed
      ensures !outcome.ReadSome? ==> addr == [] && writers == old(writers)
      ensures readers == old(readers) + if outcome.ReaderSleeps? then {me} else {}
    {
      CountersTell();
      addr := [];
      if nread == nwrite && writeopen {
        if killed {
          return ReadFailed, addr;
        }
        readers := readers + {me};
        return ReaderSleeps, addr;
      }
      while |addr| < n
        invariant Valid() && got == old(got) + addr && |addr| <= n
        invariant readers == old(readers) && writers == old(writers)
        invariant old(Empty()) ==> addr == []
        invariant |addr| < n && Empty() && !old(Empty()) ==> addr != []
        decreases n - |addr|
      {
        CountersTell();
        if nread == nwrite {
          break;
        }
        var b := Take();
        addr := addr + [b];
      }
      writers := {};
      return ReadSome, addr;
    }

    /** pipeclose: the other end is woken. `free` is whether the pipe is given back. */
    method Close(writable: bool) returns (free: bool)
      requires Valid() && if writable then writeopen && writers == {} else readopen && readers == {}
      modifies this`readopen, this`writeopen, this`readers, this`writers
      ensures Valid() && free == (!readopen && !writeopen)
      ensures old(SleepersOk()) ==> SleepersOk()
      ensures if writable then !writeopen && readopen == old(readopen) else !readopen && writeopen == old(writeopen)
      ensures readers == {} && writers == {}
    {
      if writable {
        writeopen := false;
        readers := {};
      } else {
        readopen := false;
        writers := {};
      }
      return !readopen && !writeopen;
    }
  }

  /** A killed writer can leave readers asleep beside a full pipe. */
  method KilledWriter() returns (p: Pipe)
    ensures fresh(p) && fresh(p.data) && p.Valid() && p.readopen && p.writeopen && p.readers == {1} &&
            p.writers == {} && p.Full() && !p.SleepersOk()
    ensures |p.sent| == PIPESIZE && p.got == []
  {
    p := new Pipe();
    var r, bytes := p.Read(1, false, 1);
    var w, i := p.Write(2, true, seq(PIPESIZE + 1, _ => 0), 0);
  }

  /** They sleep until somebody else writes, or its end is closed. */
  method WokenByClose() returns (p: Pipe)
    ensures p.Valid() && p.readers == {} && p.SleepersOk() && |p.sent| == PIPESIZE && p.got == []
  {
    p := KilledWriter();
    var free := p.Close(true);
  }
}
