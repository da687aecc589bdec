/** Pipes (pipe.c).  Each method is what a process does between taking p->lock, or waking from sleep,
    and sleeping or releasing the lock; a run of a pipe is any sequence of such calls by any number of
    readers and writers. */
module Pipe {
  import opened Common

  const PIPESIZE := 512

  datatype Outcome = Slept | Returned(n: int)

  /** Counters that agree modulo 2^32 and are at most PIPESIZE apart. */
  lemma CountersMeet(r: nat, w: nat)
    requires r <= w <= r + PIPESIZE
    ensures r % UINT == w % UINT <==> r == w
    ensures w % UINT == (r % UINT + PIPESIZE) % UINT <==> w == r + PIPESIZE
    ensures (w % UINT) % PIPESIZE == w % PIPESIZE && (r % UINT) % PIPESIZE == r % PIPESIZE
    ensures ((w % UINT) + 1) % UINT == (w + 1) % UINT && ((r % UINT) + 1) % UINT == (r + 1) % UINT
  {
    SlotOf(w);
    SlotOf(r);
    NextBy(w, 1);
    NextBy(r, 1);
    Apart32(r, w);
    Apart32(w, r + PIPESIZE);
    NextBy(r, PIPESIZE);
  }

  lemma SlotOf(w: nat)
    ensures (w % UINT) % PIPESIZE == w % PIPESIZE
  {
    var q := w / UINT;
    assert w == q * UINT + w % UINT;
    assert w == (q * 0x80_0000) * PIPESIZE + w % UINT;
  }

  lemma NextBy(w: nat, d: nat)
    ensures (w % UINT + d) % UINT == (w + d) % UINT
  {
    var q, a := w / UINT, w % UINT;
    assert w + d == (a + d) + q * UINT;
    Shift(a + d, q);
  }

  lemma {:induction false} Shift(a: nat, q: nat)
    ensures (a + q * UINT) % UINT == a % UINT
  {
    if q > 0 {
      Shift(a, q - 1);
      assert a + q * UINT == (a + (q - 1) * UINT) + UINT;
    }
  }

  lemma Apart32(r: nat, w: nat)
    requires r <= w < r + UINT
    ensures r % UINT == w % UINT <==> r == w
  {
    if r % UINT == w % UINT {
      assert w - r == (w / UINT - r / UINT) * UINT;
    }
  }

  class Pipe {
    const data: array<int>
    var nread: nat                     // number of bytes read, modulo 2^32
    var nwrite: nat                    // number of bytes written, modulo 2^32
    var readopen: bool
    var writeopen: bool
    var readers: set<nat>              // processes asleep on &p->nread
    var writers: set<nat>              // processes asleep on &p->nwrite
    ghost var written: seq<int>        // every byte ever written
    ghost var consumed: nat            // how many of them have been read

    /** The counters and the ring hold the bytes written and not yet read. */
    ghost predicate Valid()
      reads this, data
    {
      && data.Length == PIPESIZE
      && consumed <= |written| <= consumed + PIPESIZE
      && nread == consumed % UINT && nwrite == |written| % UINT
      && (forall k {:trigger written[k]} :: consumed <= k < |written| ==> data[k % PIPESIZE] == written[k])
    }

    /** Nobody sleeps without cause: readers only while the pipe is empty and can still be written,
        writers only while it is full and can still be read. */
    ghost predicate Awake()
      reads this
    {
      && (readers != {} ==> |written| == consumed && writeopen && readopen)
      && (writers != {} ==> |written| == consumed + PIPESIZE && readopen)
    }

    constructor ()
      ensures Valid() && Awake() && written == [] && consumed == 0 && readopen && writeopen && fresh(data)
      ensures readers == {} && writers == {}
    {
      data := new int[PIPESIZE];
      nread, nwrite, readopen, writeopen := 0, 0, true, true;
      readers, writers := {}, {};
      written, consumed := [], 0;
    }

    /** pipewrite, from byte i on.  Slept: the writer waits at byte i'; Returned: the call is over.
        The bytes go into the pipe in order.  Readers are left asleep beside data exactly when a killed
        writer has more to write than fits the pipe they sleep on. */
    method Write(me: nat, addr: seq<int>, i: nat, killed: bool) returns (r: Outcome, i': nat)
      requires Valid() && i <= |addr| && me !in readers && me !in writers
      modifies this`nwrite, this`written, this`readers, this`writers, data
      ensures Valid() && i <= i' <= |addr| && written == old(written) + addr[i..i']
      ensures i' < |addr| ==> |written| == consumed + PIPESIZE
      ensures r == if i' == |addr| then Returned(|addr|) else if !readopen || killed then Returned(-1) else Slept
      ensures readers == if r == Returned(-1) then old(readers) else {}
      ensures writers == if r == Slept then old(writers) + {me} else old(writers)
      ensures old(Awake()) ==> (Awake() <==> !(killed && old(readers) != {} && |addr| - i > PIPESIZE))
    {
      i' := i;
      while i' < |addr|
        invariant i <= i' <= |addr| && Valid() && written == old(written) + addr[i..i']
        invariant readers == old(readers) && writers == old(writers)
        invariant old(Awake()) && writers != {} ==> i' == i
        invariant old(Awake()) && readers != {} && |written| > consumed ==> i' > i
      {
        CountersMeet(consumed, |written|);
        if nwrite == (nread + PIPESIZE) % UINT {
          if !readopen || killed {
            return Returned(-1), i';
          }
          readers := {};
          writers := writers + {me};
          return Slept, i';
        }
        Put(addr[i']);
        i' := i' + 1;
      }
      readers := {};
      return Returned(|addr|), i';
    }

    /** p->data[p->nwrite++ % PIPESIZE] = c */
    method Put(c: int)
      requires Valid() && |written| < consumed + PIPESIZE
      modifies this`nwrite, this`written, data
      ensures Valid() && written == old(written) + [c]
    {
      CountersMeet(consumed, |written|);
      forall k | consumed <= k < |written| ensures k % PIPESIZE != |written| % PIPESIZE {
        Apart(k, |written|);
      }
      data[nwrite % PIPESIZE] := c;
      nwrite := (nwrite + 1) % UINT;
      written := written + [c];
    }

    /** piperead of n bytes.  What it returns is the next stretch of the bytes written. */
    method Read(me: nat, n: nat, killed: bool) returns (r: Outcome, out: seq<int>)
      requires Valid() && me !in readers && me !in writers && readopen
      modifies this`nread, this`consumed, this`readers, this`writers
      ensures Valid() && old(consumed) <= consumed <= |written| && out == written[old(consumed)..consumed]
      ensures old(Awake()) ==> Awake()
      ensures r == Slept <==> |written| == old(consumed) && writeopen && !killed
      ensures r == Slept || r == Returned(-1) ==> out == [] && writers == old(writers)
      ensures readers == if r == Slept then old(readers) + {me} else old(readers)
      ensures r != Slept && r != Returned(-1) ==> writers == {}
      ensures r == Returned(-1) <==> |written| == old(consumed) && writeopen && killed
      ensures r != Slept && r != Returned(-1) ==>
            r == Returned(|out|) && |out| == if n <= |written| - old(consumed) then n else |written| - old(consumed)
    {
      out := [];
      CountersMeet(consumed, |written|);
      if nread == nwrite && writeopen {
        if killed {
          return Returned(-1), [];
        }
        readers := readers + {me};
        return Slept, [];
      }
      while |out| < n
        invariant |out| <= n && Valid() && old(consumed) <= consumed <= |written|
        invariant out == written[old(consumed)..consumed]
        invariant readers == old(readers) && writers == old(writers)
      {
        CountersMeet(consumed, |written|);
        if nread == nwrite {
          break;
        }
        out := out + [data[nread % PIPESIZE]];
        nread := (nread + 1) % UINT;
        consumed := consumed + 1;
      }
      writers := {};
      return Returned(|out|), out;
    }

    /** pipeclose.  The last reader's end is closed by a process that is not asleep reading. */
    method Close(writable: bool) returns (freed: bool)
      requires Valid() && (!writable ==> readers == {})
      modifies this`readopen, this`writeopen, this`readers, this`writers
      ensures Valid() && (old(Awake()) ==> Awake())
      ensures if writable then !writeopen && readers == {} && readopen == old(readopen)
              else !readopen && writers == {} && writeopen == old(writeopen)
      ensures freed <==> !readopen && !writeopen
    {
      if writable {
        writeopen := false;
        readers := {};
      } else {
        readopen := false;
        writers := {};
      }
      freed := !readopen && !writeopen;
    }

    /** kill wakes its victim. */
    method Kill(victim: nat)
      requires Valid()
      modifies this`readers, this`writers
      ensures Valid() && (old(Awake()) ==> Awake()) && readers == old(readers) - {victim}
      ensures writers == old(writers) - {victim}
    {
      readers := readers - {victim};
      writers := writers - {victim};
    }

    /** Readers and writers are never asleep at the same time. */
    lemma NotBothAsleep()
      requires Awake()
      ensures readers == {} || writers == {}
    {
    }
  }

  lemma Apart(k: nat, w: nat)
    requires k < w < k + PIPESIZE
    ensures k % PIPESIZE != w % PIPESIZE
  {
  }

  /** A reader asleep on an empty pipe, and a killed writer of one byte more than the pipe holds: the
      reader is left asleep beside a full pipe. */
  method KilledWriterStrandsReader() returns (p: Pipe, w: Outcome)
    ensures fresh(p) && p.Valid() && w == Returned(-1)
    ensures p.readers == {1} && |p.written| == p.consumed + PIPESIZE && !p.Awake()
  {
    p := new Pipe();
    var r, out := p.Read(1, 1, false);
    assert r == Slept && p.readers == {1};
    var done;
    w, done := p.Write(2, seq(PIPESIZE + 1, i => 0), 0, true);
  }
}
