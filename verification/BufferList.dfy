/** The buffer cache's circular doubly linked list, kept in most-recently-used order.

    Buffers are numbered 0..n-1 and the list head is number n; `next` and `prev` are the pointers.
    The ghost sequence `order` is the list the pointers spell out, front (most recently released)
    first. */
module BufferList {

  /** struct buf without its data: the pair (dev, blockno) and the three flags. */
  datatype Buf = Buf(dev: int, blockno: int, busy: bool, valid: bool, dirty: bool)

  datatype GetResult =
    | Got(i: nat)          // a buffer, now busy for the caller
    | Sleep(i: nat)        // cached but busy: wait for its owner and look again
    | NoBuffers            // panic("bget: no buffers")

  predicate Caches(b: Buf, dev: int, blockno: int) {
    b.dev == dev && b.blockno == blockno
  }

  predicate Recyclable(b: Buf) {
    !b.busy && !b.dirty
  }

  /** s is a list of all the numbers below n, each once. */
  ghost predicate Lists(s: seq<nat>, n: nat) {
    && |s| == n
    && (forall i :: 0 <= i < |s| ==> s[i] < n)
    && (forall i, j :: 0 <= i < j < |s| ==> s[i] != s[j])
  }

  /** The pointers spell out `order` in both directions, through the head n. */
  ghost predicate Linked(order: seq<nat>, next: seq<nat>, prev: seq<nat>, n: nat)
    requires |next| == |prev| == n + 1
    requires forall i :: 0 <= i < |order| ==> order[i] < n
  {
    && next[n] == Front(order, n)
    && prev[n] == Back(order, n)
    && (forall i {:trigger next[order[i]]} :: 0 <= i < |order| ==>
          next[order[i]] == if i + 1 < |order| then order[i + 1] else n)
    && (forall i {:trigger prev[order[i]]} :: 0 <= i < |order| ==> prev[order[i]] == if i > 0 then order[i - 1] else n)
  }

  function Front(order: seq<nat>, n: nat): nat {
    if order == [] then n else order[0]
  }

  function Back(order: seq<nat>, n: nat): nat {
    if order == [] then n else order[|order| - 1]
  }

  /** The order after releasing the buffer at position k. */
  function ToFront(order: seq<nat>, k: nat): seq<nat>
    requires k < |order|
  {
    [order[k]] + order[..k] + order[k + 1..]
  }

  /** At most one buffer caches a given block of a real device. */
  ghost predicate Unique(bufs: seq<Buf>) {
    forall i, j :: 0 <= i < j < |bufs| && bufs[i].dev >= 0
      ==> !Caches(bufs[j], bufs[i].dev, bufs[i].blockno)
  }

  /** Moving one element to the front keeps a list of all the numbers a list of all the numbers. */
  lemma ToFrontLists(order: seq<nat>, k: nat, n: nat)
    requires Lists(order, n) && k < n
    ensures Lists(ToFront(order, k), n)
    ensures multiset(ToFront(order, k)) == multiset(order)
  {
    assert order == order[..k] + [order[k]] + order[k + 1..];
    var t := ToFront(order, k);
    forall i | 0 <= i < |t| ensures t[i] == order[if i == 0 then k else if i <= k then i - 1 else i] {
    }
  }

  /** A list of all the numbers below n contains each of them. */
  lemma {:induction false} ListsAll(s: seq<nat>, n: nat, x: nat)
    requires Lists(s, n) && x < n
    ensures exists i :: 0 <= i < |s| && s[i] == x
  {
    if n == 1 {
      assert s[0] == x;
    } else if exists i :: 0 <= i < |s| && s[i] == n - 1 {
      var i :| 0 <= i < |s| && s[i] == n - 1;
      if x != n - 1 {
        var rest := s[..i] + s[i + 1..];
        assert forall j :: 0 <= j < |rest| ==> rest[j] == s[if j < i then j else j + 1];
        ListsAll(rest, n - 1, x);
        var j :| 0 <= j < |rest| && rest[j] == x;
        assert s[if j < i then j else j + 1] == x;
      }
    } else {
      var rest := s[..|s| - 1];
      assert Lists(rest, n - 1);
      ListsAll(rest, n - 1, s[|s| - 1]);
      assert false;
    }
  }

  function Without(order: seq<nat>, k: nat): (r: seq<nat>)
    requires k < |order|
    ensures |r| == |order| - 1
    ensures forall i :: 0 <= i < k ==> r[i] == order[i]
    ensures forall i :: k <= i < |r| ==> r[i] == order[i + 1]
  {
    order[..k] + order[k + 1..]
  }

  /** Closing the gap in the forward direction. */
  lemma UnlinkNext(order: seq<nat>, next: seq<nat>, prev: seq<nat>, n: nat, k: nat)
    requires Lists(order, n) && |next| == |prev| == n + 1 && Linked(order, next, prev, n) && k < n
    ensures var r, b := Without(order, k), order[k];
            var next' := next[prev[b] := next[b]];
            next'[n] == Front(r, n)
            && forall i {:trigger next'[r[i]]} :: 0 <= i < |r| ==> next'[r[i]] == if i + 1 < |r| then r[i + 1] else n
  {
    var r, b := Without(order, k), order[k];
    var next' := next[prev[b] := next[b]];
    assert prev[b] == if k > 0 then order[k - 1] else n;
    assert next[b] == if k + 1 < n then order[k + 1] else n;
    forall i | 0 <= i < |r| ensures next'[r[i]] == if i + 1 < |r| then r[i + 1] else n {
      var o := if i < k then i else i + 1;
      assert r[i] == order[o];
      assert next[order[o]] == if o + 1 < n then order[o + 1] else n;
    }
  }

  /** Closing the gap in the backward direction. */
  lemma UnlinkPrev(order: seq<nat>, next: seq<nat>, prev: seq<nat>, n: nat, k: nat)
    requires Lists(order, n) && |next| == |prev| == n + 1 && Linked(order, next, prev, n) && k < n
    ensures var r, b := Without(order, k), order[k];
            var prev' := prev[next[b] := prev[b]];
            prev'[b] == prev[b] && prev'[n] == Back(r, n)
            && forall i {:trigger prev'[r[i]]} :: 0 <= i < |r| ==> prev'[r[i]] == if i > 0 then r[i - 1] else n
  {
    var r, b := Without(order, k), order[k];
    var prev' := prev[next[b] := prev[b]];
    assert prev[b] == if k > 0 then order[k - 1] else n;
    assert next[b] == if k + 1 < n then order[k + 1] else n;
    forall i | 0 <= i < |r| ensures prev'[r[i]] == if i > 0 then r[i - 1] else n {
      var o := if i < k then i else i + 1;
      assert r[i] == order[o];
      assert prev[order[o]] == if o > 0 then order[o - 1] else n;
    }
  }

  class BufferCache {
    const n: nat
    var bufs: seq<Buf>
    var next: seq<nat>
    var prev: seq<nat>
    ghost var order: seq<nat>

    ghost predicate Valid()
      reads this
    {
      && |bufs| == n && |next| == |prev| == n + 1
      && Lists(order, n)
      && Linked(order, next, prev, n)
      && Unique(bufs)
    }

    /** binit: every buffer is pushed on the front of an empty ring. */
    constructor (n: nat)
      ensures Valid() && this.n == n
      ensures order == seq(n, i requires 0 <= i < n => n - 1 - i)
      ensures forall i :: 0 <= i < n ==> bufs[i] == Buf(-1, 0, false, false, false)
    {
      this.n := n;
      var nx: seq<nat> := seq(n + 1, i => n);
      var pv: seq<nat> := seq(n + 1, i => n);
      ghost var o: seq<nat> := [];
      var b := 0;
      while b < n
        invariant 0 <= b <= n
        invariant |nx| == |pv| == n + 1
        invariant o == seq(b, i requires 0 <= i < b => b - 1 - i)
        invariant Linked(o, nx, pv, n)
      {
        var first := nx[n];
        ghost var o' := [b] + o;
        nx := nx[b := first];
        pv := pv[b := n];
        pv := pv[first := b];
        nx := nx[n := b];
        forall i | 0 <= i < |o'| ensures nx[o'[i]] == if i + 1 < |o'| then o'[i + 1] else n {
          if i > 0 {
            assert o'[i] == o[i - 1];
          }
        }
        forall i | 0 <= i < |o'| ensures pv[o'[i]] == if i > 0 then o'[i - 1] else n {
          if i > 0 {
            assert o'[i] == o[i - 1];
          }
        }
        o := o';
        b := b + 1;
      }
      next, prev, order := nx, pv, o;
      bufs := seq(n, i => Buf(-1, 0, false, false, false));
    }

    /** bget, one pass: the cached buffer if there is one, else the least recently used buffer that
        is neither busy nor dirty. */
    method Bget(dev: nat, blockno: int) returns (r: GetResult)
      requires Valid()
      modifies this`bufs
      ensures Valid()
      ensures r.Got? ==> r.i < n && !old(bufs)[r.i].busy && bufs[r.i].busy && Caches(bufs[r.i], dev, blockno)
      ensures r.Got? ==> forall j :: 0 <= j < n && j != r.i ==> bufs[j] == old(bufs)[j]
      ensures !r.Got? ==> bufs == old(bufs)
      ensures r.Sleep? ==> r.i < n && bufs[r.i].busy && Caches(bufs[r.i], dev, blockno)
      ensures (exists i :: 0 <= i < n && Caches(old(bufs)[i], dev, blockno))
                ==> !r.NoBuffers? && Caches(old(bufs)[r.i], dev, blockno)
                    && (r.Got? ==> bufs[r.i] == old(bufs)[r.i].(busy := true))
      ensures (forall i :: 0 <= i < n ==> !Caches(old(bufs)[i], dev, blockno))
                ==> !r.Sleep?
                    && (r.Got? ==> Recyclable(old(bufs)[r.i])
                                   && bufs[r.i] == Buf(dev, blockno, true, false, false)
                                   && LeastRecent(order, old(bufs), r.i))
                    && (r.NoBuffers? ==> forall i :: 0 <= i < n ==> !Recyclable(old(bufs)[i]))
    {
      ghost var k := 0;
      var b := next[n];
      while b != n
        invariant 0 <= k <= n
        invariant b == if k < n then order[k] else n
        invariant forall m :: 0 <= m < k ==> !Caches(bufs[order[m]], dev, blockno)
        invariant bufs == old(bufs)
        decreases n - k
      {
        if bufs[b].dev == dev && bufs[b].blockno == blockno {
          if !bufs[b].busy {
            bufs := bufs[b := bufs[b].(busy := true)];
            OnlyOne(old(bufs), b, dev, blockno);
            return Got(b);
          }
          OnlyOne(old(bufs), b, dev, blockno);
          return Sleep(b);
        }
        b := next[b];
        k := k + 1;
      }
      forall i | 0 <= i < n ensures !Caches(bufs[i], dev, blockno) {
        ListsAll(order, n, i);
      }
      b := prev[n];
      k := n;
      while b != n
        invariant 0 <= k <= n
        invariant b == if k > 0 then order[k - 1] else n
        invariant forall m :: k <= m < n ==> !Recyclable(bufs[order[m]])
        invariant bufs == old(bufs)
        decreases k
      {
        if !bufs[b].busy && !bufs[b].dirty {
          bufs := bufs[b := Buf(dev, blockno, true, false, false)];
          assert order[k - 1] == b;
          return Got(b);
        }
        b := prev[b];
        k := k - 1;
      }
      forall i | 0 <= i < n ensures !Recyclable(bufs[i]) {
        ListsAll(order, n, i);
      }
      r := NoBuffers;
    }

    /** brelse: clear B_BUSY and move the buffer to the front of the list. */
    method Brelse(b: nat, ghost k: nat)
      requires Valid() && b < n && k < n && order[k] == b && bufs[b].busy
      modifies this
      ensures Valid()
      ensures order == ToFront(old(order), k)
      ensures bufs == old(bufs)[b := old(bufs)[b].(busy := false)]
    {
      ghost var rest := Without(order, k);
      Unlink(b, k);
      PushFront(b, rest);
      order := [b] + rest;
      ToFrontLists(old(order), k, n);
      assert order == ToFront(old(order), k);
      bufs := bufs[b := bufs[b].(busy := false)];
    }

    /** Take buffer b out of the ring. */
    method Unlink(b: nat, ghost k: nat)
      requires Valid() && b < n && k < n && order[k] == b
      modifies this`next, this`prev
      ensures |next| == |prev| == n + 1
      ensures Linked(Without(order, k), next, prev, n)
    {
      UnlinkNext(order, next, prev, n, k);
      UnlinkPrev(order, next, prev, n, k);
      prev := prev[next[b] := prev[b]];
      next := next[prev[b] := next[b]];
    }

    /** Link buffer b in behind the head. */
    method PushFront(b: nat, ghost rest: seq<nat>)
      requires b < n && |next| == |prev| == n + 1
      requires forall i :: 0 <= i < |rest| ==> rest[i] < n && rest[i] != b
      requires forall i, j :: 0 <= i < j < |rest| ==> rest[i] != rest[j]
      requires Linked(rest, next, prev, n)
      modifies this`next, this`prev
      ensures |next| == |prev| == n + 1
      ensures Linked([b] + rest, next, prev, n)
    {
      ghost var o := [b] + rest;
      next := next[b := next[n]];
      prev := prev[b := n];
      prev := prev[next[n] := b];
      next := next[n := b];
      forall i | 0 <= i < |o| ensures next[o[i]] == if i + 1 < |o| then o[i + 1] else n {
        if i > 0 {
          assert o[i] == rest[i - 1];
        }
      }
      forall i | 0 <= i < |o| ensures prev[o[i]] == if i > 0 then o[i - 1] else n {
        if i > 0 {
          assert o[i] == rest[i - 1];
        }
      }
    }
  }

  /** Every buffer nearer the back of the list than i is busy or dirty. */
  ghost predicate LeastRecent(order: seq<nat>, bufs: seq<Buf>, i: nat) {
    exists k :: 0 <= k < |order| && order[k] == i
      && forall m :: k < m < |order| && order[m] < |bufs| ==> !Recyclable(bufs[order[m]])
  }

  lemma OnlyOne(bufs: seq<Buf>, b: nat, dev: nat, blockno: int)
    requires Unique(bufs) && b < |bufs| && Caches(bufs[b], dev, blockno)
    ensures forall i :: 0 <= i < |bufs| && Caches(bufs[i], dev, blockno) ==> i == b
  {
  }
}
