/** The user-level allocator (umalloc.c), after section 8.7 of The C Programming Language, 2nd ed.
    Addresses count header units of 8 bytes; a block is named by the address of its header. */
module Umalloc {
  import opened Common
  import opened PageTables
  import LazyAlloc

  const BASE := 1                      // the address of `base`, below the heap
  const UNITS := 0x2000_0000           // one more than the largest address
  const SPACE := 0x1000_0000           // where the kernel's half begins
  const UNITS_PER_PAGE := 512

  /** Blocks by address, with their sizes in units. */
  type Blocks = map<nat, nat>

  // ---- The free list ----

  /** No free block starts between a and b. */
  ghost predicate Gap(free: Blocks, a: nat, b: nat) {
    forall c :: c in free ==> !(a < c < b)
  }

  /** a is the last free block. */
  ghost predicate Last(free: Blocks, a: nat) {
    forall c :: c in free ==> c <= a
  }

  /** Block a leads to the next higher free block, or from the highest one back to `base`. */
  ghost predicate Leads(free: Blocks, next: map<nat, nat>, a: nat)
    requires a in free
  {
    && a in next && next[a] in free
    && (a == BASE || (a > BASE && free[a] > 0))
    && (if next[a] > a then Gap(free, a, next[a]) else next[a] == BASE && Last(free, a))
  }

  /** The links form one ring in address order. */
  ghost predicate Ring(free: Blocks, next: map<nat, nat>) {
    && BASE in free && free[BASE] == 0
    && (forall a {:trigger Leads(free, next, a)} :: a in free ==> Leads(free, next, a))
  }

  /** Free blocks neither overlap nor touch: the list is fully coalesced. */
  ghost predicate Coalesced(free: Blocks) {
    forall a, b :: a in free && b in free && a < b ==> a + free[a] < b
  }

  /** Unit u lies in one of the blocks. */
  ghost predicate Covered(m: Blocks, u: nat) {
    exists a :: a in m && a <= u < a + m[a]
  }

  /** Some block has n units or more. */
  ghost predicate Fits(m: Blocks, n: nat) {
    exists b :: b in m && m[b] >= n
  }

  ghost predicate Clear(m: Blocks, at: nat, n: nat) {
    forall a :: a in m ==> a + m[a] <= at || at + n <= a
  }

  /** p is the free block before address at, and q the one after it, or `base`. */
  ghost predicate Neighbours(free: Blocks, p: nat, q: nat, at: nat) {
    && p in free && q in free && p < at
    && (if q > p then at < q && Gap(free, p, q) else q == BASE && Last(free, p))
  }

  /** The free blocks after n units at `at` have been freed between p and q. */
  function Freed(free: Blocks, p: nat, q: nat, at: nat, n: nat): Blocks
    requires p in free && q in free
  {
    var m := if at + n == q then n + free[q] else n;
    var rest := if at + n == q then free - {q} else free;
    if p + free[p] == at then rest[p := free[p] + m] else rest[at := m]
  }

  lemma FreedCoalesced(free: Blocks, p: nat, q: nat, at: nat, n: nat)
    requires Coalesced(free) && Neighbours(free, p, q, at) && n > 0 && Clear(free, at, n) && BASE <= p
    requires free[p] <= at - p
    requires q <= p ==> q == BASE
    ensures Coalesced(Freed(free, p, q, at, n))
  {
  }

  /** What free writes into the links: next' differs from next at p and at `at` only. */
  ghost predicate Relinked(free: Blocks, next: map<nat, nat>, next': map<nat, nat>, p: nat, at: nat, n: nat)
    requires p in free && p in next && next[p] in next
  {
    var link := if at + n == next[p] then next[next[p]] else next[p];
    && (forall a :: a in free && a != p && a in next ==> a in next' && next'[a] == next[a])
    && p in next'
    && (if p + free[p] == at then next'[p] == link else at in next' && next'[p] == at && next'[at] == link)
  }

  /** The setting of free: block `at` of n units goes between p and its successor q. */
  ghost predicate Freeing(free: Blocks, next: map<nat, nat>, p: nat, q: nat, at: nat, n: nat) {
    && Ring(free, next) && Coalesced(free) && n > 0 && Clear(free, at, n) && BASE < at
    && p in free && p in next && next[p] == q && Neighbours(free, p, q, at) && q in next
  }

  /** The links of the blocks that stay as they were. */
  lemma OtherLeads(free: Blocks, next: map<nat, nat>, next': map<nat, nat>, p: nat, q: nat, at: nat, n: nat, a: nat)
    requires Freeing(free, next, p, q, at, n) && Relinked(free, next, next', p, at, n)
    requires a in free && a != p && !(a == q && at + n == q)
    ensures a in Freed(free, p, q, at, n) && Leads(Freed(free, p, q, at, n), next', a)
  {
    assert Leads(free, next, a) && Leads(free, next, p);
    assert next'[a] == next[a];
    var free' := Freed(free, p, q, at, n);
    assert next[a] != q || q == BASE;
    assert next[a] in free';
    assert !(a < at < next[a]);
  }

  /** The link of the block that now holds the freed units. */
  lemma HolderLeads(free: Blocks, next: map<nat, nat>, next': map<nat, nat>, p: nat, q: nat, at: nat, n: nat)
    requires Freeing(free, next, p, q, at, n) && Relinked(free, next, next', p, at, n)
    ensures var b := if p + free[p] == at then p else at;
            b in Freed(free, p, q, at, n) && Leads(Freed(free, p, q, at, n), next', b)
  {
    assert Leads(free, next, p) && Leads(free, next, q) && Leads(free, next, BASE);
    var free' := Freed(free, p, q, at, n);
    var link := if at + n == q then next[q] else q;
    assert link in free';
    assert link > at || link == BASE;
    if link > at {
      assert Gap(free', at, link);
      assert Gap(free', p, link) || at in free';
    } else {
      assert forall c :: c in free' ==> c <= at || c == p;
    }
  }

  /** The link of p when it does not hold them. */
  lemma BeforeLeads(free: Blocks, next: map<nat, nat>, next': map<nat, nat>, p: nat, q: nat, at: nat, n: nat)
    requires Freeing(free, next, p, q, at, n) && Relinked(free, next, next', p, at, n) && p + free[p] != at
    ensures Leads(Freed(free, p, q, at, n), next', p)
  {
    assert Leads(free, next, p);
    assert next'[p] == at;
  }

  /** The blocks after freeing: those before, less the one joined on the right, plus the freed one. */
  lemma FreedKeys(free: Blocks, next: map<nat, nat>, p: nat, q: nat, at: nat, n: nat, a: nat)
    requires Freeing(free, next, p, q, at, n)
    ensures a in Freed(free, p, q, at, n) <==> (a in free && !(a == q && at + n == q)) || (a == at && p + free[p] != at)
    ensures a in Freed(free, p, q, at, n) && a in free && a != p ==> Freed(free, p, q, at, n)[a] == free[a]
  {
  }

  lemma FreedLeads(free: Blocks, next: map<nat, nat>, next': map<nat, nat>, p: nat, q: nat, at: nat, n: nat, a: nat)
    requires Freeing(free, next, p, q, at, n) && Relinked(free, next, next', p, at, n) && a in Freed(free, p, q, at, n)
    ensures Leads(Freed(free, p, q, at, n), next', a)
  {
    FreedKeys(free, next, p, q, at, n, a);
    hide Leads, Coalesced, Clear, Neighbours, Relinked, Freed;
    if a in free && a != p {
      OtherLeads(free, next, next', p, q, at, n, a);
    } else if a == p && p + free[p] != at {
      BeforeLeads(free, next, next', p, q, at, n);
    } else {
      HolderLeads(free, next, next', p, q, at, n);
    }
  }

  lemma FreedRing(free: Blocks, next: map<nat, nat>, next': map<nat, nat>, p: nat, q: nat, at: nat, n: nat)
    requires Freeing(free, next, p, q, at, n) && Relinked(free, next, next', p, at, n)
    ensures Ring(Freed(free, p, q, at, n), next')
  {
    FreedKeys(free, next, p, q, at, n, BASE);
    hide Leads, Coalesced, Clear, Neighbours, Relinked, Freed;
    var free' := Freed(free, p, q, at, n);
    assert free'[BASE] == 0 by {
      FreedBase(free, next, p, q, at, n);
    }
    forall a | a in free' ensures Leads(free', next', a) {
      FreedLeads(free, next, next', p, q, at, n, a);
    }
  }

  lemma FreedBase(free: Blocks, next: map<nat, nat>, p: nat, q: nat, at: nat, n: nat)
    requires Freeing(free, next, p, q, at, n)
    ensures BASE in Freed(free, p, q, at, n) && Freed(free, p, q, at, n)[BASE] == 0
  {
  }

  /** Freeing adds exactly the units of the block to the free ones. */
  lemma FreedCovers(free: Blocks, p: nat, q: nat, at: nat, n: nat, u: nat)
    requires Neighbours(free, p, q, at) && n > 0 && Clear(free, at, n) && BASE < at
    ensures Covered(Freed(free, p, q, at, n), u) <==> Covered(free, u) || at <= u < at + n
  {
    var free' := Freed(free, p, q, at, n);
    var b := if p + free[p] == at then p else at;
    if Covered(free, u) {
      var a :| a in free && a <= u < a + free[a];
      if a == p || (a == q && at + n == q) {
        assert b in free' && (a == p ==> p in free' && p + free'[p] >= p + free[p]);
        assert a == q && at + n == q ==> b <= u < b + free'[b];
      } else {
        assert a in free' && free'[a] == free[a];
      }
    } else if at <= u < at + n {
      assert b in free' && b <= u < b + free'[b];
    }
  }

  // ---- Taking a block ----

  /** The free blocks after n units have been taken from block p: all of it, or its tail. */
  function Taken(free: Blocks, p: nat, n: nat): Blocks
    requires p in free && n <= free[p]
  {
    if free[p] == n then free - {p} else free[p := free[p] - n]
  }

  /** Where the taken units start. */
  function TakenAt(free: Blocks, p: nat, n: nat): nat
    requires p in free && n <= free[p]
  {
    p + free[p] - n
  }

  lemma TakenOk(free: Blocks, next: map<nat, nat>, next': map<nat, nat>, prev: nat, p: nat, n: nat)
    requires Ring(free, next) && Coalesced(free) && p in free && 0 < n <= free[p] && prev in free && prev in next
    requires next[prev] == p
    requires forall a :: a in free && a in next && a != prev ==> a in next' && next'[a] == next[a]
    requires p in next && prev in next' && next'[prev] == if free[p] == n then next[p] else p
    ensures Ring(Taken(free, p, n), next') && Coalesced(Taken(free, p, n)) && prev in Taken(free, p, n)
  {
    var free' := Taken(free, p, n);
    assert Leads(free, next, BASE) && Leads(free, next, prev) && Leads(free, next, p);
    TakenCoalesced(free, p, n);
    PrevKept(free, next, prev, p);
    TakenKeys(free, p, n, BASE);
    TakenKeys(free, p, n, prev);
    hide Leads, Coalesced, Taken;
    forall a | a in free' ensures Leads(free', next', a) {
      TakenKeys(free, p, n, a);
      assert Leads(free, next, a);
      LinkOf(free, next, a);
      TakenLeads(free, next, next', prev, p, n, a);
    }
  }

  lemma TakenKeys(free: Blocks, p: nat, n: nat, a: nat)
    requires p in free && 0 < n <= free[p]
    ensures a in Taken(free, p, n) ==> a in free
    ensures a in free && a != p ==> a in Taken(free, p, n) && Taken(free, p, n)[a] == free[a]
  {
  }

  lemma TakenCoalesced(free: Blocks, p: nat, n: nat)
    requires Coalesced(free) && p in free && 0 < n <= free[p]
    ensures Coalesced(Taken(free, p, n))
  {
  }

  lemma LinkOf(free: Blocks, next: map<nat, nat>, a: nat)
    requires a in free && Leads(free, next, a)
    ensures a in next && next[a] in free
  {
  }

  lemma PrevKept(free: Blocks, next: map<nat, nat>, prev: nat, p: nat)
    requires p in free && free[p] > 0 && prev in free && prev in next && next[prev] == p && Leads(free, next, prev)
    requires Leads(free, next, p)
    requires BASE in free && free[BASE] == 0
    ensures prev != p && p != BASE
  {
  }

  lemma TakenLeads(free: Blocks, next: map<nat, nat>, next': map<nat, nat>, prev: nat, p: nat, n: nat, a: nat)
    requires p in free && 0 < n <= free[p] && prev in free && prev in next && next[prev] == p && a in Taken(free, p, n)
    requires a in free
    requires Leads(free, next, prev) && Leads(free, next, p) && Leads(free, next, a) && BASE in free && free[BASE] == 0
    requires a != prev ==> a in next' && next'[a] == next[a]
    requires prev in next' && next'[prev] == if free[p] == n then next[p] else p
    ensures Leads(Taken(free, p, n), next', a)
  {
    assert prev != p;
    if a != prev && free[p] == n {
      assert next[a] != p;
    }
  }

  lemma TakenCovers(free: Blocks, p: nat, n: nat, u: nat)
    requires p in free && 0 < n <= free[p] && Coalesced(free)
    ensures Covered(free, u) <==> Covered(Taken(free, p, n), u) || TakenAt(free, p, n) <= u < TakenAt(free, p, n) + n
    ensures Clear(Taken(free, p, n), TakenAt(free, p, n), n)
  {
    var free' := Taken(free, p, n);
    if Covered(free, u) {
      var a :| a in free && a <= u < a + free[a];
      if a != p {
        assert a in free' && free'[a] == free[a];
      } else if u < TakenAt(free, p, n) {
        assert p in free' && p <= u < p + free'[p];
      }
    }
  }

  // ---- Free and allocated together ----

  /** The allocated blocks do not overlap each other or the free ones, and free and allocated units
      together are exactly the units obtained from sbrk. */
  ghost predicate Pool(free: Blocks, used: Blocks, heap: set<nat>) {
    && (forall a :: a in used ==> a > BASE && used[a] > 0 && Clear(free, a, used[a]))
    && (forall a, b :: a in used && b in used && a != b ==> a + used[a] <= b || b + used[b] <= a)
    && (forall u: nat :: u in heap <==> Covered(free, u) || Covered(used, u))
  }

  lemma CoveredWithout(used: Blocks, at: nat, u: nat)
    requires at in used && (forall a, b :: a in used && b in used && a != b ==> a + used[a] <= b || b + used[b] <= a)
    ensures Covered(used, u) <==> Covered(used - {at}, u) || at <= u < at + used[at]
  {
    if Covered(used, u) {
      var a :| a in used && a <= u < a + used[a];
      assert a != at ==> a in used - {at};
    }
  }

  lemma CoveredWith(used: Blocks, at: nat, n: nat, u: nat)
    requires at !in used
    ensures Covered(used[at := n], u) <==> Covered(used, u) || at <= u < at + n
  {
    if Covered(used, u) {
      var a :| a in used && a <= u < a + used[a];
      assert a in used[at := n];
    } else if at <= u < at + n {
      assert at in used[at := n];
    }
  }

  lemma FreedPool(free: Blocks, used: Blocks, heap: set<nat>, p: nat, q: nat, at: nat)
    requires Pool(free, used, heap) && at in used && Neighbours(free, p, q, at) && BASE in free && free[BASE] == 0
    ensures Pool(Freed(free, p, q, at, used[at]), used - {at}, heap)
  {
    var free', used' := Freed(free, p, q, at, used[at]), used - {at};
    forall u: nat ensures u in heap <==> Covered(free', u) || Covered(used', u) {
      FreedCovers(free, p, q, at, used[at], u);
      CoveredWithout(used, at, u);
    }
    forall a | a in used' ensures Clear(free', a, used'[a]) {
      FreedClear(free, p, q, at, used[at], a, used[a]);
    }
  }

  lemma FreedClear(free: Blocks, p: nat, q: nat, at: nat, n: nat, a: nat, m: nat)
    requires Neighbours(free, p, q, at) && Clear(free, at, n) && Clear(free, a, m) && m > 0
    requires (at + n <= a || a + m <= at)
    ensures Clear(Freed(free, p, q, at, n), a, m)
  {
  }

  lemma TakenPool(free: Blocks, used: Blocks, heap: set<nat>, p: nat, n: nat)
    requires Pool(free, used, heap) && Coalesced(free) && p in free && 0 < n <= free[p] && p > BASE
    ensures var at := TakenAt(free, p, n); at !in used && Pool(Taken(free, p, n), used[at := n], heap)
  {
    var at := TakenAt(free, p, n);
    assert at !in used by {
      assert at in used ==> Clear(free, at, used[at]);
    }
    forall u: nat ensures u in heap <==> Covered(Taken(free, p, n), u) || Covered(used[at := n], u) {
      TakenCovers(free, p, n, u);
      CoveredWith(used, at, n, u);
    }
    TakenCovers(free, p, n, 0);
    forall a | a in used
      ensures a > BASE && Clear(Taken(free, p, n), a, used[a]) && (a + used[a] <= at || at + n <= a)
    {
      assert Clear(free, a, used[a]);
    }
  }

  /** None of the n units at `at` has been obtained before. */
  ghost predicate Unseen(heap: set<nat>, at: nat, n: nat) {
    at > BASE && forall u: nat :: at <= u < at + n ==> u !in heap
  }

  /** The heap with n more units at `at`. */
  ghost function Extended(heap: set<nat>, at: nat, n: nat): (r: set<nat>)
    ensures forall u: nat :: u in r <==> u in heap || at <= u < at + n
    decreases n
  {
    if n == 0 then heap else Extended(heap, at, n - 1) + {at + n - 1}
  }

  lemma UnseenClear(m: Blocks, heap: set<nat>, at: nat, n: nat)
    requires Unseen(heap, at, n) && n > 0 && (forall u: nat :: Covered(m, u) ==> u in heap)
    requires forall a :: a in m ==> (a <= BASE && m[a] == 0) || m[a] > 0
    ensures Clear(m, at, n)
  {
    forall a | a in m ensures a + m[a] <= at || at + n <= a {
      var u := if a < at then at else a;
      if a <= u < a + m[a] {
        assert Covered(m, u);
      }
    }
  }

  /** New memory from sbrk, as an allocated block. */
  lemma ExtendedPool(free: Blocks, used: Blocks, heap: set<nat>, at: nat, n: nat)
    requires Pool(free, used, heap) && Unseen(heap, at, n) && n > 0
    requires forall a :: a in free ==> (a <= BASE && free[a] == 0) || free[a] > 0
    ensures at !in used && Pool(free, used[at := n], Extended(heap, at, n))
  {
    UnseenClear(free, heap, at, n);
    UnseenClear(used, heap, at, n);
    assert at !in used;
    PoolWith(free, used, heap, Extended(heap, at, n), at, n);
  }

  lemma PoolWith(free: Blocks, used: Blocks, heap: set<nat>, heap': set<nat>, at: nat, n: nat)
    requires Pool(free, used, heap) && at > BASE && n > 0 && at !in used && Clear(free, at, n) && Clear(used, at, n)
    requires forall u: nat :: u in heap' <==> u in heap || at <= u < at + n
    ensures Pool(free, used[at := n], heap')
  {
    forall u: nat ensures u in heap' <==> Covered(free, u) || Covered(used[at := n], u) {
      CoveredWith(used, at, n, u);
    }
    hide Covered;
    var used' := used[at := n];
    forall a | a in used' ensures a > BASE && used'[a] > 0 && Clear(free, a, used'[a]) {
    }
  }

  // ---- Sizes in bytes and units ----

  /** malloc's nunits, computed on 32-bit unsigned integers. */
  function NUnits(nbytes: nat): nat {
    (nbytes + 7) % UINT / 8 + 1
  }

  /** morecore's request. */
  function Ask(nu: nat): nat {
    if nu < 4096 then 4096 else nu
  }

  /** The units hold the bytes asked for exactly when the rounding does not wrap. */
  lemma EnoughIff(nbytes: nat)
    requires nbytes < UINT
    ensures 8 * (NUnits(nbytes) - 1) >= nbytes <==> nbytes <= UINT - 8
  {
  }

  /** The requests for which sbrk is asked for as many bytes as morecore means. */
  predicate AsksRight(nbytes: nat) {
    nbytes <= UINT / 2 - 16 || nbytes > UINT - 8
  }

  /** The argument of morecore's call of sbrk, as a 32-bit signed integer. */
  function Argument(nu: nat): int {
    var bytes := Ask(nu) * 8 % UINT;
    if bytes < UINT / 2 then bytes else bytes - UINT
  }

  /** It is the intended byte count exactly for requests of at most 2^31 - 16 bytes, and for those whose
      rounding has wrapped.  For the others it is zero or negative. */
  lemma SbrkArgumentIff(nbytes: nat)
    requires nbytes < UINT
    ensures Argument(NUnits(nbytes)) == Ask(NUnits(nbytes)) * 8 <==> AsksRight(nbytes)
    ensures !AsksRight(nbytes) ==>
              SPACE <= NUnits(nbytes) == Ask(NUnits(nbytes)) <= UNITS
              && Argument(NUnits(nbytes)) == 8 * (NUnits(nbytes) - UNITS)
    ensures AsksRight(nbytes) ==> 0 < NUnits(nbytes) < SPACE
  {
  }

  // ---- The process's memory ----

  /** What sbrk answers, None for -1, and the process's memory afterwards: its size in units, and the
      first unit past its pages. */
  datatype Break = Break(answer: Option<nat>, brk: nat, top: nat)

  function PagesEnd(brk: nat): nat {
    (brk + UNITS_PER_PAGE - 1) / UNITS_PER_PAGE * UNITS_PER_PAGE
  }

  /** sys_sbrk.  A growth may also be refused for want of frames. */
  function Moved(brk: nat, n: int, granted: bool): Break {
    var to := brk + n / 8;
    if n > 0 then
      if to < SPACE && granted then Break(Some(brk), to, PagesEnd(to)) else Break(None, brk, PagesEnd(brk))
    else if n == 0 || to < 0 then Break(Some(brk), brk, PagesEnd(brk))
    else if to == 0 then Break(None, brk, 0)
    else Break(Some(brk), to, PagesEnd(to))
  }

  /** It is what growproc does. */
  lemma MovedIsGrow(p: LazyAlloc.Proc, brk: nat, n: int, lazily: bool)
    requires p.sz == 8 * brk && 0 < brk < SPACE && n % 8 == 0 && -0x8000_0000 <= n < 0x8000_0000
    ensures var o, m := LazyAlloc.Grow(p, n, lazily), Moved(brk, n, true);
            o.r == (if m.answer.Some? then 8 * m.answer.value else -1) && o.p.sz == 8 * m.brk
  {
  }

  /** The pages a process has under the default allocator are those below the first unit past them. */
  lemma MovedPages(p: LazyAlloc.Proc, brk: nat, n: int, vp: nat)
    requires p.sz == 8 * brk && 0 < brk < SPACE && n % 8 == 0 && -0x8000_0000 <= n < 0x8000_0000
    requires LazyAlloc.Tabled(p) && forall q :: q in p.pages <==> 0 <= q < PageUp(p.sz)
    ensures vp in LazyAlloc.Grow(p, n, false).p.pages <==> vp * UNITS_PER_PAGE < Moved(brk, n, true).top
  {
    var size := LazyAlloc.Resized(p.sz, n);
    PageOf(brk, vp);
    if n < 0 && size < p.sz {
      PageOf(brk + n / 8, vp);
      if vp in p.pages {
        if PageUp(size) <= vp {
          LazyAlloc.EagerMissesNothing(p, PageUp(size), vp);
        }
        LazyAlloc.ShrinkExact(p, size, vp);
      }
    } else if n > 0 && size < LazyAlloc.KERNBASE {
      PageOf(brk + n / 8, vp);
    }
  }

  lemma PageOf(brk: nat, vp: nat)
    ensures vp < PageUp(8 * brk) <==> vp * UNITS_PER_PAGE < PagesEnd(brk)
  {
  }

  /** Writing the header of the block at the old break kills the process: its page is not there. */
  predicate Faults(m: Break) {
    m.answer.Some? && m.answer.value >= m.top
  }

  /** That happens exactly if the argument is garbled, sbrk answers, and the break was at the start of a
      page or is moved down to or below it. */
  lemma FaultsIff(nbytes: nat, brk: nat, granted: bool)
    requires nbytes < UINT && UNITS_PER_PAGE <= brk < SPACE
    ensures var to := brk + NUnits(nbytes) - UNITS;
            Faults(Moved(brk, Argument(NUnits(nbytes)), granted)) <==>
            !AsksRight(nbytes) && to != 0
            && (if 0 < to then to <= brk / UNITS_PER_PAGE * UNITS_PER_PAGE else brk % UNITS_PER_PAGE == 0)
  {
    SbrkArgumentIff(nbytes);
  }

  // ---- The allocator ----

  ghost function Bound(m: Blocks): (r: nat)
    ensures forall a :: a in m ==> a <= r
    decreases |m|
  {
    if m == map[] then 0
    else
      var a :| a in m;
      assert forall b :: b in m ==> b == a || b in m - {a};
      var r := Bound(m - {a});
      if a > r then a else r
  }

  /** The headers hold the sizes of the blocks. */
  ghost predicate SizesOf(size: map<nat, nat>, m: Blocks) {
    forall a :: a in m ==> a in size && size[a] == m[a]
  }

  /** The blocks of the ring from behind f up to, not including, p. */
  predicate Passed(f: nat, p: nat, c: nat) {
    if p > f then f < c < p else c > f || c < p
  }

  /** The units on the lists are all in the process's memory, and so is `base`, on an earlier page than
      the break. */
  ghost predicate Backed(heap: set<nat>, brk: nat, top: nat) {
    UNITS_PER_PAGE <= brk < SPACE && top == PagesEnd(brk) && forall u :: u in heap ==> u < brk
  }

  class Allocator {
    var next: map<nat, nat>            // s.ptr of each header
    var size: map<nat, nat>            // s.size of each header
    var freep: nat                     // 0 before the first malloc
    var brk: nat                       // the process's size, in units
    var top: nat                       // the first unit past its pages
    ghost var free: Blocks
    ghost var used: Blocks
    ghost var heap: set<nat>

    ghost predicate Listed()
      reads this
    {
      && Ring(free, next) && Coalesced(free) && freep in free && Pool(free, used, heap)
      && SizesOf(size, free) && SizesOf(size, used)
    }

    ghost predicate Valid()
      reads this
    {
      Backed(heap, brk, top) && if freep == 0 then used == map[] && heap == {} else Listed()
    }

    constructor (brk: nat)
      requires UNITS_PER_PAGE <= brk < SPACE
      ensures Valid() && used == map[] && heap == {} && this.brk == brk && freep == 0
    {
      next, size, freep := map[], map[], 0;
      this.brk, top := brk, PagesEnd(brk);
      free, used, heap := map[], map[], {};
    }

    /** The program itself moves the break up. */
    method Extend(to: nat)
      requires Valid() && brk <= to < SPACE
      modifies this`brk, this`top
      ensures Valid() && brk == to
    {
      brk, top := to, PagesEnd(to);
    }

    /** free's search for the place of block bp: it ends, at the free block before bp. */
    method Search(bp: nat) returns (p: nat)
      requires Ring(free, next) && freep in free && bp > BASE && bp !in free
      ensures p in free && p in next && Neighbours(free, p, next[p], bp)
    {
      ghost var top := Bound(free);
      p := freep;
      assert Leads(free, next, p);
      while !(bp > p && bp < next[p])
        invariant p in free && p in next && Leads(free, next, p)
        decreases p > bp, if p > bp then top - p else bp - p
      {
        if p >= next[p] && (bp > p || bp < next[p]) {
          break;
        }
        p := next[p];
        assert Leads(free, next, p);
      }
    }

    /** free: the block joins the free list, merged with the free blocks it touches. */
    method Free(bp: nat)
      requires Valid() && bp in used
      modifies this
      ensures Valid() && used == old(used) - {bp} && heap == old(heap) && brk == old(brk) && freep != 0
      ensures Fits(free, old(used)[bp])
    {
      BackedWhole(free, used, heap, bp, brk);
      Release(bp);
    }

    /** The same for any block on the lists, whose end the pointer arithmetic does not take for another
        block. */
    method Release(bp: nat)
      requires Listed() && bp in used && Whole(free, bp, used[bp])
      modifies this`next, this`size, this`freep, this`free, this`used
      ensures Listed() && used == old(used) - {bp} && freep != 0
      ensures Fits(free, old(used)[bp])
    {
      hide Ring, Coalesced, Pool, Leads, Neighbours, Clear, Freed, Freeing, Relinked, SizesOf, Whole, Fits;
      ghost var n, next0 := used[bp], next;
      UsedApart(free, next, used, heap, bp);
      var p := Search(bp);
      ghost var q := next[p];
      FreedAll(free, next, p, q, bp, used, heap);
      Relink(bp, p);
      FreedRing(free, next0, next, p, q, bp, n);
      free := Freed(free, p, q, bp, n);
      used := used - {bp};
      freep := p;
    }

    /** morecore: unless sbrk refuses, the units it asked for join the free list, whether or not sbrk
        made room for them.  `killed` tells that the process died writing the new header. */
    method Morecore(nu: nat, granted: bool) returns (ok: bool, killed: bool)
      requires Listed() && Backed(heap, brk, top) && 0 < nu <= UNITS
      modifies this
      ensures var m := Moved(old(brk), Argument(nu), granted);
              brk == m.brk && top == m.top && killed == Faults(m) && ok == (m.answer.Some? && !killed)
      ensures used == old(used) && (!killed ==> Listed() && freep != 0)
      ensures heap == if ok then Extended(old(heap), old(brk), Ask(nu)) else old(heap)
      ensures !ok ==> next == old(next) && size == old(size) && free == old(free) && freep == old(freep)
      ensures ok ==> Fits(free, nu)
    {
      hide Ring, Coalesced, Pool, SizesOf, Backed, Moved, Argument, Ask, Faults, Whole, Unseen, Extended, Fits;
      var n := Ask(nu);
      var m := Moved(brk, Argument(nu), granted);
      WholeNew(free, next, heap, used, brk, top, nu, granted);
      brk, top := m.brk, m.top;
      if m.answer == None {
        return false, false;
      }
      var hp := m.answer.value;
      if hp >= top {
        return false, true;
      }
      AddBlock(hp, n);
      return true, false;
    }

    /** morecore's writes: the header of a block of n units, which is then freed. */
    method AddBlock(hp: nat, n: nat)
      requires Listed() && n > 0 && Unseen(heap, hp, n) && Whole(free, hp, n)
      modifies this`next, this`size, this`freep, this`free, this`used, this`heap
      ensures Listed() && freep != 0 && used == old(used) && heap == Extended(old(heap), hp, n)
      ensures Fits(free, n)
    {
      BaseBelow(free, next);
      ExtendedPool(free, used, heap, hp, n);
      SizesWith(size, free, used, next, Extended(heap, hp, n), hp, n);
      assert (used[hp := n]) - {hp} == used;
      hide Ring, Coalesced, Pool, SizesOf, Whole;
      size := size[hp := n];
      used := used[hp := n];
      heap := Extended(heap, hp, n);
      Release(hp);
    }

    /** malloc's way out of its loop: take n units from block p, whose predecessor is prev. */
    method Take(prev: nat, p: nat, n: nat) returns (r: nat)
      requires Listed() && prev in free && prev in next && next[prev] == p && p in free && 0 < n <= free[p]
      requires TakenAt(free, p, n) < UNITS
      modifies this`next, this`size, this`freep, this`free, this`used
      ensures Listed() && freep == prev != 0 && r == TakenAt(old(free), p, n)
      ensures r !in old(used) && used == old(used)[r := n] && r > BASE
    {
      ghost var at := TakenAt(free, p, n);
      TakenAll(free, next, prev, p, n, at, used, heap);
      hide Ring, Coalesced, Pool, Taken, TakenAt, SizesOf;
      r := Unlink(prev, p, n);
      free := Taken(free, p, n);
      used := used[r := n];
      freep := prev;
    }

    /** malloc.  `granted` tells whether sbrk finds frames, `calls` counts the calls of morecore, and
        `killed` tells that the process died in it; r is the header's address, 0 for failure.  The block
        is in the process's memory and holds the bytes asked for exactly if they are at most 2^31 - 16. */
    method Malloc(nbytes: nat, granted: bool) returns (r: nat, killed: bool, calls: nat)
      requires Valid() && nbytes < UINT
      modifies this
      ensures calls == if old(freep) != 0 && Fits(old(free), NUnits(nbytes)) then 0 else 1
      ensures calls == 0 ==> brk == old(brk) && top == old(top) && !killed && r != 0 && heap == old(heap)
      ensures calls == 1 ==>
                var m := Moved(old(brk), Argument(NUnits(nbytes)), granted);
                && brk == m.brk && top == m.top && killed == Faults(m)
                && (r != 0 <==> m.answer.Some? && !killed)
                && heap == if r != 0 then Extended(old(heap), old(brk), Ask(NUnits(nbytes))) else old(heap)
      ensures !killed ==> Listed() && freep != 0 && (Valid() <==> AsksRight(nbytes))
      ensures r == 0 ==> used == old(used)
      ensures r != 0 ==> r !in old(used) && used == old(used)[r := NUnits(nbytes)]
      ensures r != 0 ==>
                (r + used[r] <= brk && 8 * (used[r] - 1) >= nbytes <==> nbytes <= UINT / 2 - 16)
    {
      hide Ring, Coalesced, Pool, SizesOf, Moved, Argument, Faults, Ask, Extended, PagesEnd;
      var nunits := (nbytes + 8 - 1) % UINT / 8 + 1;
      SbrkArgumentIff(nbytes);
      ghost var heap0, brk0, top0 := heap, brk, top;
      if freep == 0 {
        Start();
      }
      hide NUnits, Backed, AsksRight;
      r, killed, calls := Obtain(nunits, granted);
      Outcome(heap0, brk0, top0, nbytes, granted, r, calls);
    }

    /** malloc's loop: n units from the first free block behind freep that is large enough, after a call of
        morecore if there is none. */
    method Obtain(n: nat, granted: bool) returns (r: nat, killed: bool, calls: nat)
      requires Listed() && Backed(heap, brk, top) && 0 < n <= UNITS
      modifies this
      ensures calls == if Fits(old(free), n) then 0 else 1
      ensures calls == 0 ==> brk == old(brk) && top == old(top) && !killed && r != 0 && heap == old(heap)
      ensures calls == 1 ==>
                var m := Moved(old(brk), Argument(n), granted);
                && brk == m.brk && top == m.top && killed == Faults(m)
                && (r != 0 <==> m.answer.Some? && !killed)
                && heap == if r != 0 then Extended(old(heap), old(brk), Ask(n)) else old(heap)
      ensures !killed ==> Listed() && freep != 0
      ensures r == 0 ==> used == old(used)
      ensures r != 0 ==> r !in old(used) && used == old(used)[r := n]
      ensures r != 0 ==> r + n <= if calls == 0 then old(brk) else old(brk) + Ask(n)
    {
      ghost var m, heap0, brk0, top0 := Moved(brk, Argument(n), granted), heap, brk, top;
      calls, killed := 0, false;
      ghost var first := free;
      BaseBelow(free, next);
      var prevp := freep;
      assert Leads(free, next, prevp);
      var p := next[prevp];
      ghost var f, end := freep, Bound(free);
      NonePassed(free, next, f, n);
      hide Ring, Coalesced, Pool, SizesOf, Leads, AllSmall, Passed, Ask, Argument, Moved, TakenAt, Faults, Backed;
      hide Extended, Fits;
      while true
        invariant Listed() && freep == f && f != 0 && prevp in free && prevp in next && next[prevp] == p && p in free
        invariant used == old(used) && calls <= 1 && !killed
        invariant AllSmall(free, f, p, n)
        invariant calls == 0 ==> heap == heap0 && brk == brk0 && top == top0 && free == first
        invariant calls == 1 ==> m.answer.Some? && heap == Extended(heap0, brk0, Ask(n))
        invariant calls == 1 ==> brk == m.brk && top == m.top && !Faults(m) && Fits(free, n) && !Fits(first, n)
        invariant forall a :: a in free ==> a <= end
        decreases 1 - calls, p > f, if p > f then end - p else f - p
      {
        SizeOf(size, free, p);
        if size[p] >= n {
          TakenBelow(free, used, heap, p, n, heap0, brk0, top0, calls);
          r := Take(prevp, p, n);
          return;
        }
        if p == freep {
          NoneBig(free, f, n);
          assert calls == 0;
          calls := 1;
          var ok;
          ok, killed := Morecore(n, granted);
          if !ok {
            return 0, killed, calls;
          }
          f := freep;
          p := freep;
          end := Bound(free);
          FirstStep(free, next, f, n);
        } else {
          NextStep(free, next, f, p, n);
        }
        prevp := p;
        p := next[p];
      }
    }

    /** The first call makes `base` a ring of its own. */
    method Start()
      requires Valid() && freep == 0
      modifies this`next, this`size, this`freep, this`free
      ensures Listed() && freep == BASE && free == map[BASE := 0]
    {
      next := map[BASE := BASE];
      size := map[BASE := 0];
      freep := BASE;
      free := map[BASE := 0];
    }

    /** malloc's writes: unlink all of block p, or cut off its tail. */
    method Unlink(prev: nat, p: nat, n: nat) returns (r: nat)
      requires SizesOf(size, free) && SizesOf(size, used) && prev != p && p in next && p in free && 0 < n <= free[p]
      requires var at := TakenAt(free, p, n);
               && at < UNITS
               && (forall a :: a in free && a != p ==> a != at)
               && (forall a :: a in used ==> a != p && a != at)
      modifies this`next, this`size
      ensures r == TakenAt(free, p, n)
      ensures SizesOf(size, Taken(free, p, n)) && SizesOf(size, used[r := n])
      ensures next == TakenNext(free, old(next), prev, p, n)
    {
      r := p;
      if size[p] == n {
        next := next[prev := next[p]];
      } else {
        size := size[p := size[p] - n];
        r := (p + size[p]) % UNITS;
        size := size[r := n];
      }
    }

    /** free's writes, once p is the block before bp. */
    method Relink(bp: nat, p: nat)
      requires bp in used && p in free && p in next && next[p] in free && next[p] in next && bp !in free && p < bp
      requires SizesOf(size, free) && SizesOf(size, used) && used[bp] > 0 && forall a :: a in free ==> a !in used
      requires p + free[p] <= bp < UNITS && ((bp + used[bp]) % UNITS == next[p] <==> bp + used[bp] == next[p])
      modifies this`next, this`size
      ensures Relinked(free, old(next), next, p, bp, used[bp])
      ensures SizesOf(size, Freed(free, p, old(next)[p], bp, used[bp])) && SizesOf(size, used - {bp})
    {
      var q := next[p];
      if (bp + size[bp]) % UNITS == q {
        size := size[bp := size[bp] + size[q]];
        next := next[bp := next[q]];
      } else {
        next := next[bp := q];
      }
      if (p + size[p]) % UNITS == bp {
        size := size[p := size[p] + size[bp]];
        next := next[p := next[bp]];
      } else {
        next := next[p := bp];
      }
    }
  }

  /** malloc(2^31) in a process whose break is inside a page: the block it returns begins at the break,
      so none of it is in the process's memory. */
  method BlockOutsideMemory(brk: nat) returns (a: Allocator, r: nat)
    requires UNITS_PER_PAGE < brk < SPACE - 1 && brk % UNITS_PER_PAGE != 0
    ensures fresh(a) && r in a.used && a.used[r] == SPACE + 1 && r == a.brk == brk && !a.Valid()
  {
    HalfSpace(brk);
    hide Extended, Ring, Coalesced, Pool, SizesOf, Moved, Argument, NUnits, Ask, Faults, Backed, Fits;
    a := new Allocator(brk);
    var killed, calls;
    r, killed, calls := a.Malloc(UINT / 2, true);
    FirstUnit(a.free, a.used, a.heap, r);
  }

  /** The same in a process whose break is at the start of a page, as exec leaves it: the process dies. */
  method BlockKills(brk: nat) returns (a: Allocator, killed: bool)
    requires UNITS_PER_PAGE <= brk < SPACE - 1 && brk % UNITS_PER_PAGE == 0
    ensures fresh(a) && killed
  {
    HalfSpace(brk);
    hide Extended, Ring, Coalesced, Pool, SizesOf, Moved, Argument, NUnits, Ask, Faults, Backed, Fits;
    a := new Allocator(brk);
    var r, calls;
    r, killed, calls := a.Malloc(UINT / 2, true);
  }

  /** What becomes of a request for 2^31 bytes. */
  lemma HalfSpace(brk: nat)
    requires UNITS_PER_PAGE <= brk < SPACE - 1
    ensures NUnits(UINT / 2) == Ask(NUnits(UINT / 2)) == SPACE + 1 && !AsksRight(UINT / 2)
    ensures var m := Moved(brk, Argument(NUnits(UINT / 2)), true);
            m.answer == Some(brk) && m.brk == brk && (Faults(m) <==> brk % UNITS_PER_PAGE == 0)
  {
  }

  lemma FirstUnit(free: Blocks, used: Blocks, heap: set<nat>, a: nat)
    requires Pool(free, used, heap) && a in used
    ensures a in heap && a + used[a] - 1 in heap
  {
    assert Covered(used, a) && Covered(used, a + used[a] - 1);
  }

  /** The 32-bit sum of address and size meets a free block behind `at`, or `base`, only where the sum
      without wrapping does. */
  ghost predicate Whole(free: Blocks, at: nat, n: nat) {
    at < UNITS && forall q :: q in free && (q > at || q == BASE) ==> ((at + n) % UNITS == q <==> at + n == q)
  }

  lemma WholeNext(free: Blocks, p: nat, q: nat, at: nat, n: nat)
    requires Whole(free, at, n) && Neighbours(free, p, q, at) && Clear(free, at, n) && n > 0 && q in free
    requires q <= p ==> q == BASE
    ensures p + free[p] <= at < UNITS && ((at + n) % UNITS == q <==> at + n == q)
  {
  }

  /** The blocks of the lists lie below the end of the heap. */
  lemma Below(free: Blocks, used: Blocks, heap: set<nat>, end: nat)
    requires Pool(free, used, heap) && forall u :: u in heap ==> u < end
    ensures forall a :: a in free && free[a] > 0 ==> a + free[a] <= end
    ensures forall a :: a in used ==> a + used[a] <= end
  {
    forall a | a in free && free[a] > 0 ensures a + free[a] <= end {
      assert Covered(free, a + free[a] - 1);
    }
    forall a | a in used ensures a + used[a] <= end {
      assert Covered(used, a + used[a] - 1);
    }
  }

  lemma BackedWhole(free: Blocks, used: Blocks, heap: set<nat>, at: nat, brk: nat)
    requires Pool(free, used, heap) && at in used && brk < SPACE && forall u :: u in heap ==> u < brk
    ensures Whole(free, at, used[at])
  {
    Below(free, used, heap, brk);
  }

  /** Unless the process dies, the block at the old break can be freed: no other block is behind it. */
  lemma WholeNew(free: Blocks, next: map<nat, nat>, heap: set<nat>, used: Blocks, brk: nat, top: nat, nu: nat,
                 granted: bool)
    requires Ring(free, next) && Pool(free, used, heap) && Backed(heap, brk, top) && 0 < nu <= UNITS
    ensures var m := Moved(brk, Argument(nu), granted);
            && (Faults(m) <==> m.answer.Some? && m.answer.value >= m.top)
            && (m.answer.Some? ==> m.answer.value == brk)
            && (m.answer.Some? && !Faults(m) ==> Whole(free, brk, Ask(nu)) && Unseen(heap, brk, Ask(nu)))
    ensures nu <= Ask(nu) && forall a :: a in free ==> a != 0
    ensures forall m :: Fits(m, Ask(nu)) ==> Fits(m, nu)
  {
    Below(free, used, heap, brk);
    BaseBelow(free, next);
  }

  lemma TakenBelow(free: Blocks, used: Blocks, heap: set<nat>, p: nat, n: nat, heap0: set<nat>, brk0: nat, top0: nat,
                   calls: nat)
    requires Pool(free, used, heap) && p in free && free[p] >= n > 0 && calls <= 1 && n <= UNITS
    requires Backed(heap0, brk0, top0) && heap == if calls == 0 then heap0 else Extended(heap0, brk0, Ask(n))
    ensures Fits(free, n)
    ensures TakenAt(free, p, n) < UNITS && TakenAt(free, p, n) + n <= if calls == 0 then brk0 else brk0 + Ask(n)
  {
    Below(free, used, heap, if calls == 0 then brk0 else brk0 + Ask(n));
  }

  /** What malloc's result is worth. */
  lemma Outcome(heap0: set<nat>, brk0: nat, top0: nat, nbytes: nat, granted: bool, r: nat, calls: nat)
    requires Backed(heap0, brk0, top0) && nbytes < UINT && calls <= 1
    requires r != 0 ==> r + NUnits(nbytes) <= if calls == 0 then brk0 else brk0 + Ask(NUnits(nbytes))
    requires var m := Moved(brk0, Argument(NUnits(nbytes)), granted);
             if calls == 0 then r != 0 else r != 0 <==> m.answer.Some? && !Faults(m)
    ensures var n, m := NUnits(nbytes), Moved(brk0, Argument(NUnits(nbytes)), granted);
            var brk, top := if calls == 0 then brk0 else m.brk, if calls == 0 then top0 else m.top;
            var heap := if calls == 1 && r != 0 then Extended(heap0, brk0, Ask(n)) else heap0;
            && (r != 0 ==> (r + n <= brk && 8 * (n - 1) >= nbytes <==> nbytes <= UINT / 2 - 16))
            && (calls == 0 || !Faults(m) ==> (Backed(heap, brk, top) <==> AsksRight(nbytes)))
  {
    SbrkArgumentIff(nbytes);
    EnoughIff(nbytes);
    var n := NUnits(nbytes);
    if calls == 1 && r != 0 && !AsksRight(nbytes) {
      assert brk0 + Ask(n) - 1 in Extended(heap0, brk0, Ask(n));
    }
  }

  /** malloc's links afterwards. */
  function TakenNext(free: Blocks, next: map<nat, nat>, prev: nat, p: nat, n: nat): map<nat, nat>
    requires p in free && p in next
  {
    if free[p] == n then next[prev := next[p]] else next
  }

  lemma TakenAll(free: Blocks, next: map<nat, nat>, prev: nat, p: nat, n: nat, at: nat, used: Blocks, heap: set<nat>)
    requires Ring(free, next) && Coalesced(free) && Pool(free, used, heap)
    requires prev in free && prev in next && next[prev] == p && p in free && 0 < n <= free[p]
    requires at == TakenAt(free, p, n)
    ensures p in next && prev != p && at > BASE && at !in used && prev != 0
    ensures Ring(Taken(free, p, n), TakenNext(free, next, prev, p, n)) && Coalesced(Taken(free, p, n))
    ensures prev in Taken(free, p, n)
    ensures Pool(Taken(free, p, n), used[at := n], heap)
    ensures (forall a :: a in free && a != p ==> a != at) && (forall a :: a in used ==> a != p && a != at)
  {
    assert Leads(free, next, prev) && Leads(free, next, p) && Leads(free, next, BASE);
    PrevKept(free, next, prev, p);
    TakenPool(free, used, heap, p, n);
    TakenSizes(free, used, heap, p, n);
    TakenOk(free, next, TakenNext(free, next, prev, p, n), prev, p, n);
  }

  /** Every block of the ring from behind f up to p is too small. */
  ghost predicate AllSmall(free: Blocks, f: nat, p: nat, n: nat) {
    forall c :: c in free && Passed(f, p, c) ==> free[c] < n
  }

  lemma NonePassed(free: Blocks, next: map<nat, nat>, f: nat, n: nat)
    requires f in free && Leads(free, next, f) && f >= BASE
    requires forall c :: c in free ==> c >= BASE
    ensures AllSmall(free, f, next[f], n)
  {
  }

  lemma SizeOf(size: map<nat, nat>, free: Blocks, p: nat)
    requires SizesOf(size, free) && p in free
    ensures p in size && size[p] == free[p]
  {
  }

  /** A full round that finds nothing has seen every block. */
  lemma NoneBig(free: Blocks, f: nat, n: nat)
    requires AllSmall(free, f, f, n) && f in free && free[f] < n
    ensures !Fits(free, n)
  {
  }

  lemma NextStep(free: Blocks, next: map<nat, nat>, f: nat, p: nat, n: nat)
    requires Ring(free, next) && f in free && p in free && p != f && free[p] < n && AllSmall(free, f, p, n)
    ensures p in next && next[p] in free && AllSmall(free, f, next[p], n)
    ensures p > f ==> next[p] > p || next[p] <= f
    ensures p < f ==> p < next[p] <= f
  {
    assert Leads(free, next, p) && Leads(free, next, f) && Leads(free, next, BASE);
    forall c | c in free ensures c >= BASE {
      assert Leads(free, next, c);
    }
  }

  lemma FirstStep(free: Blocks, next: map<nat, nat>, f: nat, n: nat)
    requires Ring(free, next) && f in free
    ensures f in next && next[f] in free && AllSmall(free, f, next[f], n)
  {
    assert Leads(free, next, f);
    forall c | c in free ensures c >= BASE {
      assert Leads(free, next, c);
    }
    NonePassed(free, next, f, n);
  }

  lemma BaseBelow(free: Blocks, next: map<nat, nat>)
    requires Ring(free, next)
    ensures forall a :: a in free ==> (a <= BASE && free[a] == 0) || free[a] > 0
    ensures forall a :: a in free ==> a != 0
  {
    forall a | a in free ensures ((a <= BASE && free[a] == 0) || free[a] > 0) && a != 0 {
      assert Leads(free, next, a);
    }
  }

  lemma SizesWith(size: map<nat, nat>, free: Blocks, used: Blocks, next: map<nat, nat>, heap: set<nat>, at: nat, n: nat)
    requires Ring(free, next) && SizesOf(size, free) && SizesOf(size, used) && n > 0 && Pool(free, used[at := n], heap)
    ensures SizesOf(size[at := n], free) && SizesOf(size[at := n], used[at := n])
  {
    assert Clear(free, at, used[at := n][at]);
    BaseBelow(free, next);
  }

  /** The blocks that stay free are not the taken one. */
  lemma TakenSizes(free: Blocks, used: Blocks, heap: set<nat>, p: nat, n: nat)
    requires Pool(free, used, heap) && Coalesced(free) && p in free && 0 < n <= free[p]
    ensures var at := TakenAt(free, p, n);
            && (forall a :: a in free && a != p ==> a != at)
            && (forall a :: a in used ==> a != p && a != at)
  {
    forall a | a in used ensures a != p && a != TakenAt(free, p, n) {
      assert Clear(free, a, used[a]);
    }
  }

  lemma UsedApart(free: Blocks, next: map<nat, nat>, used: Blocks, heap: set<nat>, at: nat)
    requires Ring(free, next) && Pool(free, used, heap) && at in used
    ensures at > BASE && at !in free
  {
    assert Clear(free, at, used[at]);
    BaseBelow(free, next);
  }

  lemma FreedAll(free: Blocks, next: map<nat, nat>, p: nat, q: nat, at: nat, used: Blocks, heap: set<nat>)
    requires Ring(free, next) && Coalesced(free) && Pool(free, used, heap) && at in used
    requires p in free && p in next && q == next[p] && Neighbours(free, p, q, at)
    requires Whole(free, at, used[at])
    ensures p + free[p] <= at < UNITS && ((at + used[at]) % UNITS == q <==> at + used[at] == q)
    ensures Freeing(free, next, p, q, at, used[at]) && at !in free && (forall a :: a in free ==> a !in used)
    ensures 0 < p < at && used[at] > 0 && q in free && q in next
    ensures var free' := Freed(free, p, q, at, used[at]);
            && Coalesced(free') && Pool(free', used - {at}, heap) && p in free'
            && Fits(free', used[at])
  {
    assert Leads(free, next, p) && Leads(free, next, BASE) && Clear(free, at, used[at]);
    assert Leads(free, next, q);
    forall a | a in free ensures a !in used {
      assert Leads(free, next, a);
      assert a in used ==> Clear(free, a, used[a]);
    }
    WholeNext(free, p, q, at, used[at]);
    FreedPool(free, used, heap, p, q, at);
    FreedCoalesced(free, p, q, at, used[at]);
    FreedKeys(free, next, p, q, at, used[at], p);
    var free' := Freed(free, p, q, at, used[at]);
    var b := if p + free[p] == at then p else at;
    assert b in free' && free'[b] >= used[at];
  }
}
