/** The frame allocator (kalloc.c) and the operations on address spaces (vm.c).
    A frame is named by its number; frame 0 plays the null pointer.  Each method that works on an
    address space takes its ghost owner map and returns the new one. */
module Vm {
  import Common
  import opened PageTables

  // ---- The free list ----

  function NextIn(free: seq<nat>, i: nat): nat
    requires i < |free|
  {
    if i + 1 < |free| then free[i + 1] else 0
  }

  /** The free list is threaded through the first word of each free frame. */
  ghost predicate Threaded(mem: seq<Page>, first: nat, head: nat, free: seq<nat>) {
    && head == (if |free| == 0 then 0 else free[0])
    && (forall i :: 0 <= i < |free| ==> 0 < first <= free[i] < |mem|)
    && (forall i :: 0 <= i < |free| ==> mem[free[i]][0] == NextIn(free, i))
    && (forall i, j :: 0 <= i < j < |free| ==> free[i] != free[j])
  }

  lemma ThreadedSame(mem: seq<Page>, mem': seq<Page>, first: nat, head: nat, free: seq<nat>)
    requires Threaded(mem, first, head, free) && |mem'| == |mem|
    requires forall f :: f in free ==> mem'[f] == mem[f]
    ensures Threaded(mem', first, head, free)
  {
    forall i | 0 <= i < |free| ensures mem'[free[i]] == mem[free[i]] {
      assert free[i] in free;
    }
  }

  ghost predicate Apart(own: Owner, free: seq<nat>) {
    forall f :: f in own ==> f !in free
  }

  lemma ThreadedTail(mem: seq<Page>, first: nat, head: nat, free: seq<nat>)
    requires Threaded(mem, first, head, free) && |free| > 0
    ensures Threaded(mem, first, mem[head][0], free[1..]) && head == free[0] && head !in free[1..]
  {
    var rest := free[1..];
    assert mem[free[0]][0] == NextIn(free, 0);
    forall i | 0 <= i < |rest| ensures 0 < first <= rest[i] < |mem| && mem[rest[i]][0] == NextIn(rest, i) {
      assert rest[i] == free[i + 1];
      assert mem[free[i + 1]][0] == NextIn(free, i + 1);
    }
  }

  function Frames(free: seq<nat>): set<nat> {
    set f | f in free
  }

  /** Frame f lies wholly in the byte range [vstart, vend). */
  predicate Whole(f: nat, vstart: nat, vend: nat) {
    vstart <= f * PGSIZE && (f + 1) * PGSIZE <= vend
  }

  /** The whole frames below p have joined the free list. */
  ghost predicate RangeFreed(free0: seq<nat>, mem0: seq<Page>, free: seq<nat>, mem: seq<Page>, vstart: nat, vend: nat,
                             p: nat) {
    && |mem| == |mem0|
    && (forall f: nat :: f in free <==> f in free0 || (Whole(f, vstart, vend) && f < p))
    && (forall f: nat :: f < |mem0| && !Whole(f, vstart, vend) ==> mem[f] == mem0[f])
  }

  lemma RangeStart(free: seq<nat>, mem: seq<Page>, vstart: nat, vend: nat)
    ensures vstart <= PageUp(vstart) * PGSIZE
    ensures RangeFreed(free, mem, free, mem, vstart, vend, PageUp(vstart))
  {
    forall f: nat | Whole(f, vstart, vend) ensures PageUp(vstart) <= f {
    }
  }

  lemma IsWhole(p: nat, vstart: nat, vend: nat)
    requires vstart <= p * PGSIZE && (p + 1) * PGSIZE <= vend
    ensures Whole(p, vstart, vend)
  {
  }

  lemma RangeStep(free0: seq<nat>, mem0: seq<Page>, free: seq<nat>, mem: seq<Page>, vstart: nat, vend: nat, p: nat,
                  page: Page)
    requires vstart <= p * PGSIZE && (p + 1) * PGSIZE <= vend && RangeFreed(free0, mem0, free, mem, vstart, vend, p)
    requires p < |mem| && p !in free0
    ensures p !in free && Whole(p, vstart, vend)
    ensures RangeFreed(free0, mem0, [p] + free, mem[p := page], vstart, vend, p + 1)
  {
  }

  lemma RangeEnd(free0: seq<nat>, mem0: seq<Page>, free: seq<nat>, mem: seq<Page>, vstart: nat, vend: nat, p: nat)
    requires (p + 1) * PGSIZE > vend && RangeFreed(free0, mem0, free, mem, vstart, vend, p)
    ensures |mem| == |mem0|
    ensures forall f: nat :: f in free <==> f in free0 || Whole(f, vstart, vend)
    ensures forall f: nat :: f < |mem0| && !Whole(f, vstart, vend) ==> mem[f] == mem0[f]
  {
    forall f: nat | Whole(f, vstart, vend) ensures f < p {
    }
  }

  /** The frames of a list, as a set of the same size. */
  ghost predicate Distinct(free: seq<nat>) {
    forall i, j :: 0 <= i < j < |free| ==> free[i] != free[j]
  }

  lemma {:induction false} FreeCount(free: seq<nat>)
    requires Distinct(free)
    ensures |Frames(free)| == |free|
  {
    if |free| > 0 {
      FreeCount(free[1..]);
      assert Frames(free) == {free[0]} + Frames(free[1..]);
      assert free[0] !in Frames(free[1..]);
    }
  }

  /** A list without repetition of the elements of another list and a disjoint set is as long as both. */
  lemma Gained(free: seq<nat>, free': seq<nat>, gained: set<nat>)
    requires Distinct(free) && Distinct(free')
    requires forall f :: f in gained ==> f !in free
    requires forall f :: f in free' <==> f in free || f in gained
    ensures |free'| == |free| + |gained|
  {
    FreeCount(free);
    FreeCount(free');
    assert Frames(free') == Frames(free) + gained;
  }

  /** An address space and the free frames at one moment. */
  datatype View = View(mem: seq<Page>, own: Owner, free: seq<nat>)

  /** Only tables of the address space and frames taken from the free list have changed. */
  ghost predicate Kept(v: View, v': View) {
    && |v'.mem| == |v.mem|
    && (forall g {:trigger v'.mem[g]} :: 0 <= g < |v.mem| && g !in v.free && (g in v.own ==> v.own[g].User?) ==>
          v'.mem[g] == v.mem[g])
  }

  /** The address space has grown: it keeps what it had, and every frame it gained was free or is one
      of `extra`, which it now maps; no frame is lost. */
  ghost predicate Grown(v: View, v': View, extra: set<nat>) {
    && (forall g :: g in v.own ==> g in v'.own && v'.own[g] == v.own[g])
    && (forall g :: g in v'.own && g !in v.own ==> g in v.free || (g in extra && v'.own[g].User?))
    && (forall g :: g in v'.free ==> g in v.free)
    && (forall g :: g in v.free ==> g in v'.free || g in v'.own)
    && (forall g :: g in extra ==> g in v'.own)
  }

  /** The flat map of v' is that of v with n pages from lo on mapped to the frames from f on, none of
      which was mapped before. */
  ghost predicate RangeMapped(v: View, v': View, pd: nat, lo: nat, n: nat, f: nat, perm: nat) {
    && pd < |v.mem| && pd < |v'.mem| && perm < PGSIZE
    && (forall q {:trigger Walk(v'.mem, pd, q)} :: 0 <= q < VPAGES ==>
          Walk(v'.mem, pd, q) == if lo <= q < lo + n then Entry(f + (q - lo), perm) else Walk(v.mem, pd, q))
    && (forall q {:trigger Walk(v.mem, pd, q)} :: lo <= q < lo + n && q < VPAGES ==> !Present(Walk(v.mem, pd, q)))
  }

  /** The frames that change hands when page vp is mapped to frame f. */
  function Given(vp: nat, f: nat): set<nat> {
    if vp < UPAGES then {f} else {}
  }

  /** v' is v after n pages from lo on have been mapped to the frames from f on. */
  ghost predicate Mapping(v: View, v': View, pd: nat, lo: nat, n: nat, f: nat, perm: nat) {
    && RangeMapped(v, v', pd, lo, n, f, perm)
    && Grown(v, v', if n > 0 then Given(lo, f) else {})
    && Kept(v, v')
  }

  lemma MappingNone(v: View, pd: nat, lo: nat, f: nat, perm: nat)
    requires pd < |v.mem| && perm < PGSIZE
    ensures Mapping(v, v, pd, lo, 0, f, perm)
  {
  }

  lemma GrownTwice(v: View, v1: View, v2: View, extra1: set<nat>, extra2: set<nat>)
    requires Grown(v, v1, extra1) && Grown(v1, v2, extra2)
    ensures Grown(v, v2, extra1 + extra2)
  {
  }

  lemma KeptTwice(v: View, v1: View, v2: View, extra: set<nat>)
    requires Kept(v, v1) && Kept(v1, v2) && Grown(v, v1, extra)
    ensures Kept(v, v2)
  {
    forall g | 0 <= g < |v.mem| && g !in v.free && (g in v.own ==> v.own[g].User?) ensures v2.mem[g] == v.mem[g] {
      assert v1.mem[g] == v.mem[g];
    }
  }

  lemma RangeMore(v: View, v1: View, v2: View, pd: nat, lo: nat, n: nat, f: nat, perm: nat)
    requires RangeMapped(v, v1, pd, lo, n, f, perm) && RangeMapped(v1, v2, pd, lo + n, 1, f + n, perm)
    requires lo + n < VPAGES
    ensures RangeMapped(v, v2, pd, lo, n + 1, f, perm)
  {
    forall q | 0 <= q < VPAGES
      ensures Walk(v2.mem, pd, q) == if lo <= q < lo + n + 1 then Entry(f + (q - lo), perm) else Walk(v.mem, pd, q)
    {
      assert Walk(v1.mem, pd, q) == if lo <= q < lo + n then Entry(f + (q - lo), perm) else Walk(v.mem, pd, q);
    }
    forall q | lo <= q < lo + n + 1 ensures !Present(Walk(v.mem, pd, q)) {
      assert Walk(v1.mem, pd, lo + n) == Walk(v.mem, pd, lo + n);
    }
  }

  /** One more page, in a range of kernel pages or as the only page. */
  lemma MappingMore(v: View, v1: View, v2: View, pd: nat, lo: nat, n: nat, f: nat, perm: nat, a: nat, g: nat)
    requires Mapping(v, v1, pd, lo, n, f, perm) && Mapping(v1, v2, pd, a, 1, g, perm) && a == lo + n < VPAGES
    requires g == f + n
    requires n == 0 || UPAGES <= lo
    ensures Mapping(v, v2, pd, lo, n + 1, f, perm)
  {
    RangeMore(v, v1, v2, pd, lo, n, f, perm);
    KeptTwice(v, v1, v2, if n > 0 then Given(lo, f) else {});
    GrownTwice(v, v1, v2, if n > 0 then Given(lo, f) else {}, Given(lo + n, f + n));
    assert (if n > 0 then Given(lo, f) else {}) + Given(lo + n, f + n) == Given(lo, f);
  }

  /** A new table, then an entry in it. */
  lemma MappingAfterTable(v: View, v1: View, v2: View, pd: nat, vp: nat, f: nat, perm: nat)
    requires Mapping(v, v1, pd, vp, 0, f, perm) && Mapping(v1, v2, pd, vp, 1, f, perm) && vp < VPAGES
    ensures Mapping(v, v2, pd, vp, 1, f, perm)
  {
    MappingMore(v, v1, v2, pd, vp, 0, f, perm, vp, f);
  }

  /** v' is v after mappages has mapped the pages from lo to a to the frames from f on, with the
      tables this took from the free list. */
  ghost predicate MappedTo(v: View, v': View, pd: nat, lo: nat, a: nat, f: nat, perm: nat) {
    && lo <= a && Mapping(v, v', pd, lo, a - lo, f, perm)
    && |v'.free| + |Absent(v.mem[pd], lo, a)| == |v.free| && DirAfter(v.mem[pd], v'.mem[pd], lo, a)
    && (a == lo ==> v' == v)
  }

  lemma MapStart(v: View, pd: nat, lo: nat, f: nat, perm: nat)
    requires pd < |v.mem| && perm < PGSIZE
    ensures MappedTo(v, v, pd, lo, lo, f, perm)
  {
    MappingNone(v, pd, lo, f, perm);
    DirStart(v.mem[pd], lo);
  }

  lemma MapAdvance(v: View, v1: View, v2: View, pd: nat, lo: nat, a: nat, next: nat, f: nat, g: nat, perm: nat)
    requires MappedTo(v, v1, pd, lo, a, f, perm) && a < VPAGES && next == a + 1 && g == f + (a - lo)
    requires a == lo || UPAGES <= lo
    requires Mapping(v1, v2, pd, a, 1, g, perm) && |v2.free| + Cost(v1.mem[pd], a) == |v1.free|
    requires WithTable(v1.mem[pd], v2.mem[pd], a)
    ensures MappedTo(v, v2, pd, lo, next, f, perm)
  {
    MappingMore(v, v1, v2, pd, lo, a - lo, f, perm, a, g);
    DirStep(v.mem[pd], v1.mem[pd], v2.mem[pd], lo, a, next);
  }

  lemma OneMapped(v: View, v': View, pd: nat, vp: nat, at: nat, f: nat, perm: nat)
    requires MappedTo(v, v', pd, vp, at, f, perm) && vp < VPAGES && (at == vp || at == vp + 1)
    ensures pd < |v.mem| && pd < |v'.mem| && Mapping(v, v', pd, vp, at - vp, f, perm)
    ensures at == vp ==> v' == v
    ensures at == vp + 1 ==> |v'.free| + Cost(v.mem[pd], vp) == |v.free| && WithTable(v.mem[pd], v'.mem[pd], vp)
  {
    OnePage(v.mem[pd], vp, vp + 1);
  }

  lemma MapStopped(v: View, v1: View, pd: nat, lo: nat, a: nat, f: nat, perm: nat)
    requires MappedTo(v, v1, pd, lo, a, f, perm) && a < VPAGES && pd < |v1.mem|
    ensures pd < |v.mem| && Walk(v1.mem, pd, a) == Walk(v.mem, pd, a)
    ensures !HasTable(v1.mem, pd, a) <==> NewTab(v.mem[pd], lo, a)
  {
    MappingBeyond(v, v1, pd, lo, a - lo, f, perm, a);
    TableNew(v.mem[pd], v1.mem[pd], lo, a);
  }

  /** What was mapped beyond the range is mapped still. */
  lemma MappingBeyond(v: View, v': View, pd: nat, lo: nat, n: nat, f: nat, perm: nat, q: nat)
    requires Mapping(v, v', pd, lo, n, f, perm) && q < VPAGES && !(lo <= q < lo + n)
    ensures Walk(v'.mem, pd, q) == Walk(v.mem, pd, q)
  {
  }

  lemma PresentHasTable(mem: seq<Page>, pd: nat, vp: nat)
    requires pd < |mem| && vp < VPAGES
    ensures Present(Walk(mem, pd, vp)) ==> HasTable(mem, pd, vp)
  {
  }

  lemma TableTaken(v: View, v': View, pd: nat, i: nat, t: nat)
    requires TreeOk(v.mem, pd, v.own) && |v.free| > 0 && t == v.free[0] && t < |v.mem| && Apart(v.own, v.free)
    requires |v'.mem| == |v.mem| && forall g :: 0 <= g < |v.mem| && g != t && g != pd ==> v'.mem[g] == v.mem[g]
    requires v'.own == v.own[t := Tab(i)] && v'.free == v.free[1..]
    ensures Grown(v, v', {}) && Kept(v, v') && pd !in v.free
  {
    assert v.own[pd] == Dir;
    assert t in v.free;
  }

  lemma EntryMapping(v: View, v': View, pd: nat, t: nat, vp: nat, f: nat, perm: nat)
    requires TreeOk(v.mem, pd, v.own) && Apart(v.own, v.free) && vp < VPAGES && perm < PGSIZE
    requires HasTable(v.mem, pd, vp) && t == TableOf(v.mem, pd, vp) < |v.mem| && !Present(Walk(v.mem, pd, vp))
    requires vp < UPAGES ==> 0 < f < |v.mem| && f !in v.own && f !in v.free
    requires v'.mem == v.mem[t := v.mem[t][vp % NPT := Entry(f, perm)]] && v'.free == v.free
    requires v'.own == if vp < UPAGES then v.own[f := User(vp)] else v.own
    ensures TreeOk(v'.mem, pd, v'.own) && Apart(v'.own, v'.free) && Mapping(v, v', pd, vp, 1, f, perm) && t !in v.free
    ensures v'.mem[pd] == v.mem[pd]
  {
    assert v.own[t] == Tab(vp / NPT) by {
      assert Present(v.mem[pd][vp / NPT]);
    }
    EntrySet(v.mem, v'.mem, pd, v.own, vp, Entry(f, perm));
    if vp < UPAGES {
      UserMapped(v.mem, v'.mem, pd, v.own, vp, f, perm);
    } else {
      KernelMapped(v.mem, v'.mem, pd, v.own, vp, Entry(f, perm));
    }
  }

  lemma StillUnowned(v: View, v': View, pd: nat, vp: nat, f: nat, perm: nat)
    requires Mapping(v, v', pd, vp, 0, f, perm) && f !in v.own && f !in v.free
    ensures f !in v'.own && f !in v'.free
  {
  }

  lemma PdInMem(mem: seq<Page>, pd: nat, own: Owner)
    requires TreeOk(mem, pd, own)
    ensures pd < |mem| && pd in own && own[pd] == Dir
  {
  }

  // ---- The kernel's mappings ----

  datatype Kmap = Kmap(lo: nat, n: nat, frame: nat, perm: nat)

  /** vm.c's kmap table, in pages. */
  function KmapTable(data: nat): seq<Kmap>
    requires UPAGES + 0x100 < data < UPAGES + NFRAMES
  {
    [ Kmap(UPAGES, 0x100, 0, PTE_W),
      Kmap(UPAGES + 0x100, data - UPAGES - 0x100, 0x100, 0),
      Kmap(data, UPAGES + NFRAMES - data, data - UPAGES, PTE_W),
      Kmap(0xFE000, 0x2000, 0xFE000, PTE_W) ]
  }

  /** The word that the first k entries of the table give page q. */
  function KernelWord(data: nat, k: nat, q: nat): nat
    requires UPAGES + 0x100 < data < UPAGES + NFRAMES && k <= 4
  {
    if k == 0 then 0
    else
      var e := KmapTable(data)[k - 1];
      if e.lo <= q < e.lo + e.n then Entry(e.frame + (q - e.lo), e.perm) else KernelWord(data, k - 1, q)
  }

  /** The entries of the table do not overlap, and lie in the kernel's half. */
  lemma KmapDisjoint(data: nat, k: nat, q: nat)
    requires UPAGES + 0x100 < data < UPAGES + NFRAMES && k <= 4
    ensures k < 4 && KmapTable(data)[k].lo <= q < KmapTable(data)[k].lo + KmapTable(data)[k].n ==>
          KernelWord(data, k, q) == 0
    ensures q < UPAGES ==> KernelWord(data, k, q) == 0
    ensures k < 4 ==> UPAGES <= KmapTable(data)[k].lo && 0 < KmapTable(data)[k].n && KmapTable(data)[k].perm < PGSIZE &&
                      KmapTable(data)[k].lo + KmapTable(data)[k].n <= VPAGES
  {
    if q < UPAGES || (k < 4 && KmapTable(data)[k].lo <= q < KmapTable(data)[k].lo + KmapTable(data)[k].n) {
      assert KernelWord(data, 0, q) == 0;
      assert k >= 1 ==> KernelWord(data, 1, q) == 0;
      assert k >= 2 ==> KernelWord(data, 2, q) == 0;
      assert k >= 3 ==> KernelWord(data, 3, q) == 0;
    }
  }

  /** An empty directory maps nothing. */
  lemma EmptyTree(mem: seq<Page>, pd: nat)
    requires 0 < pd < |mem| && mem[pd] == Zeroes()
    ensures TreeOk(mem, pd, map[pd := Dir])
    ensures forall q {:trigger Walk(mem, pd, q)} :: 0 <= q < VPAGES ==> Walk(mem, pd, q) == 0
  {
  }

  lemma TablesAdded(v0: View, v1: View, v2: View)
    requires Grown(v0, v1, {}) && Kept(v0, v1) && Grown(v1, v2, {}) && Kept(v1, v2)
    ensures Grown(v0, v2, {}) && Kept(v0, v2)
  {
    GrownTwice(v0, v1, v2, {}, {});
    KeptTwice(v0, v1, v2, {});
    var none: set<nat> := {};
    assert none + none == none;
  }

  predicate AtLeast(i: nat, a: nat) {
    a <= i
  }

  function Span(a: nat, b: nat): (s: set<nat>)
    ensures forall i :: i in s <==> a <= i < b
  {
    set i: nat | i < b && AtLeast(i, a)
  }

  lemma {:induction false} SpanSize(a: nat, b: nat)
    requires a <= b
    ensures |Span(a, b)| == b - a
  {
    if a < b {
      SpanSize(a, b - 1);
      assert Span(a, b) == Span(a, b - 1) + {b - 1};
    } else {
      assert Span(a, b) == {};
    }
  }

  /** The page tables that the first k entries of the kernel's table use. */
  ghost function KernelTabs(data: nat, k: nat): set<nat>
    requires UPAGES + 0x100 < data < UPAGES + NFRAMES && k <= 4
  {
    if k == 0 then {}
    else
      var e := KmapTable(data)[k - 1];
      KernelTabs(data, k - 1) + Span(e.lo / NPT, TableEnd(e.lo, e.lo + e.n))
  }

  /** The tables of a directory are exactly tabs. */
  ghost predicate TabsAre(dir: Page, tabs: set<nat>) {
    forall i {:trigger dir[i]} :: 0 <= i < NPT ==> (Present(dir[i]) <==> i in tabs)
  }

  /** A directory and 64 tables: what setupkvm takes. */
  const KERNEL_FRAMES := 65

  /** The kernel's mappings use 64 tables, wherever its data starts: 56 for physical memory and 8 for
      the devices. */
  lemma KernelTabsAll(data: nat)
    requires UPAGES + 0x100 < data < UPAGES + NFRAMES
    ensures KernelTabs(data, 4) == Span(512, 568) + Span(1016, 1024)
    ensures |KernelTabs(data, 4)| == KERNEL_FRAMES - 1
  {
    hide Span;
    hide KernelTabs;
    KernelTabsThree(data);
    KernelTabsNext(data, 3);
    SpanSize(512, 568);
    SpanSize(1016, 1024);
    assert KernelTabs(data, 4) == KernelTabs(data, 3) + Span(1016, 1024);
    assert Span(512, 568) !! Span(1016, 1024);
  }

  lemma KernelTabsNext(data: nat, k: nat)
    requires UPAGES + 0x100 < data < UPAGES + NFRAMES && k < 4
    ensures var e := KmapTable(data)[k];
            KernelTabs(data, k + 1) == KernelTabs(data, k) + Span(e.lo / NPT, TableEnd(e.lo, e.lo + e.n))
  {
  }

  lemma KernelTabsThree(data: nat)
    requires UPAGES + 0x100 < data < UPAGES + NFRAMES
    ensures KernelTabs(data, 3) == Span(512, 568)
  {
    var mid, at := (data - 1) / NPT + 1, data / NPT;
    hide Span;
    assert KernelTabs(data, 0) == {};
    hide KernelTabs;
    KernelTabsNext(data, 0);
    KernelTabsNext(data, 1);
    KernelTabsNext(data, 2);
    assert KernelTabs(data, 3) == KernelTabs(data, 0) + Span(512, 513) + Span(512, mid) + Span(at, 568);
    ThreeSpans(KernelTabs(data, 0), mid, at);
  }

  lemma ThreeSpans(none: set<nat>, mid: nat, at: nat)
    requires none == {} && 513 <= mid <= 568 && 512 <= at <= mid
    ensures none + Span(512, 513) + Span(512, mid) + Span(at, 568) == Span(512, 568)
  {
    hide Span;
  }

  lemma {:induction false} KernelTabsMore(data: nat, k: nat, m: nat)
    requires UPAGES + 0x100 < data < UPAGES + NFRAMES && k <= m <= 4
    ensures KernelTabs(data, k) <= KernelTabs(data, m) && |KernelTabs(data, k)| <= |KernelTabs(data, m)|
  {
    if k < m {
      KernelTabsMore(data, k, m - 1);
      Common.SubsetSize(KernelTabs(data, m - 1), KernelTabs(data, m));
    }
  }

  /** What entry k of the kernel's table costs, and the tables there are after it. */
  lemma KernelCost(data: nat, k: nat, dir: Page, dir': Page, e: Kmap)
    requires UPAGES + 0x100 < data < UPAGES + NFRAMES && k < 4 && e == KmapTable(data)[k]
    requires TabsAre(dir, KernelTabs(data, k))
    ensures |Absent(dir, e.lo, e.lo + e.n)| == |KernelTabs(data, k + 1)| - |KernelTabs(data, k)|
    ensures DirAfter(dir, dir', e.lo, e.lo + e.n) ==> TabsAre(dir', KernelTabs(data, k + 1))
  {
    var tabs := Span(e.lo / NPT, TableEnd(e.lo, e.lo + e.n));
    var absent := Absent(dir, e.lo, e.lo + e.n);
    assert KernelTabs(data, k + 1) == KernelTabs(data, k) + tabs;
    KmapDisjoint(data, k, 0);
    assert TableEnd(e.lo, e.lo + e.n) <= NPT;
    forall i ensures i in absent <==> i in tabs && i !in KernelTabs(data, k) {
    }
    assert KernelTabs(data, k + 1) == KernelTabs(data, k) + absent;
    assert KernelTabs(data, k) !! absent;
  }

  ghost predicate KernelOnly(mem: seq<Page>, pd: nat, data: nat, k: nat) {
    && pd < |mem| && UPAGES + 0x100 < data < UPAGES + NFRAMES && k <= 4
    && (forall q {:trigger Walk(mem, pd, q)} :: 0 <= q < VPAGES ==> Walk(mem, pd, q) == KernelWord(data, k, q))
  }

  lemma KernelMore(v: View, v': View, pd: nat, data: nat, k: nat, e: Kmap)
    requires KernelOnly(v.mem, pd, data, k) && k < 4 && e == KmapTable(data)[k] && e.perm < PGSIZE
    requires RangeMapped(v, v', pd, e.lo, e.n, e.frame, e.perm)
    ensures KernelOnly(v'.mem, pd, data, k + 1)
  {
    forall q | 0 <= q < VPAGES ensures Walk(v'.mem, pd, q) == KernelWord(data, k + 1, q) {
      assert Walk(v.mem, pd, q) == KernelWord(data, k, q);
    }
  }

  /** While the first k entries are mapped, no page of entry k is. */
  lemma KernelNext(mem: seq<Page>, pd: nat, data: nat, k: nat, q: nat)
    requires KernelOnly(mem, pd, data, k) && k < 4 && q < VPAGES
    requires KmapTable(data)[k].lo <= q < KmapTable(data)[k].lo + KmapTable(data)[k].n
    ensures !Present(Walk(mem, pd, q))
  {
    KmapDisjoint(data, k, q);
  }

  // ---- Taking pages away ----

  /** Frame g of the address space is mapped by a page in `pages`. */
  predicate MappedIn(own: Owner, g: nat, pages: set<nat>) {
    g in own && own[g].User? && own[g].vp in pages
  }

  /** v' is v with the pages in `pages` unmapped and their frames, no others, given back. */
  ghost predicate Cleared(v: View, v': View, pd: nat, pages: set<nat>) {
    && pd < |v.mem| == |v'.mem| && v'.mem[pd] == v.mem[pd]
    && (forall q {:trigger Walk(v'.mem, pd, q)} :: 0 <= q < VPAGES ==>
          Walk(v'.mem, pd, q) == if q in pages && Present(Walk(v.mem, pd, q)) then 0 else Walk(v.mem, pd, q))
    && (forall g :: g in v'.own <==> g in v.own && !MappedIn(v.own, g, pages))
    && (forall g :: g in v'.own ==> v'.own[g] == v.own[g])
    && (forall g :: g in v'.free <==> g in v.free || MappedIn(v.own, g, pages))
    && (forall g {:trigger v'.mem[g]} :: 0 <= g < |v.mem| && (g in v.own ==> v.own[g].User? && g in v'.own) ==>
          v'.mem[g] == v.mem[g])
  }

  lemma ClearedNone(v: View, pd: nat)
    requires pd < |v.mem|
    ensures Cleared(v, v, pd, {})
  {
  }

  lemma ClearedMore(v: View, v1: View, v2: View, pd: nat, pages: set<nat>, vp: nat)
    requires Cleared(v, v1, pd, pages) && Cleared(v1, v2, pd, {vp})
    ensures Cleared(v, v2, pd, pages + {vp})
  {
    forall q | 0 <= q < VPAGES
      ensures Walk(v2.mem, pd, q) == if q in pages + {vp} && Present(Walk(v.mem, pd, q)) then 0 else Walk(v.mem, pd, q)
    {
      assert Walk(v1.mem, pd, q) == if q in pages && Present(Walk(v.mem, pd, q)) then 0 else Walk(v.mem, pd, q);
    }
    forall g | 0 <= g < |v.mem| && (g in v.own ==> v.own[g].User? && g in v2.own) ensures v2.mem[g] == v.mem[g] {
      assert v1.mem[g] == v.mem[g];
    }
  }

  /** A page that is not mapped has nothing to clear. */
  lemma ClearedAbsent(v: View, pd: nat, vp: nat)
    requires TreeOk(v.mem, pd, v.own) && vp < UPAGES && !Present(Walk(v.mem, pd, vp))
    ensures Cleared(v, v, pd, {vp})
  {
    forall g | g in v.own ensures !MappedIn(v.own, g, {vp}) {
      assert UsedAs(v.mem, pd, g, v.own[g]);
    }
  }

  /** A mapped page whose entry is zeroed and whose frame f goes to the front of the free list. */
  lemma ClearedOne(v: View, mem1: seq<Page>, v': View, pd: nat, vp: nat, f: nat)
    requires TreeOk(v.mem, pd, v.own) && vp < UPAGES && HasTable(v.mem, pd, vp) && TableOf(v.mem, pd, vp) < |v.mem|
    requires Present(Walk(v.mem, pd, vp)) && f == FrameOf(Walk(v.mem, pd, vp))
    requires mem1 == v.mem[TableOf(v.mem, pd, vp) := v.mem[TableOf(v.mem, pd, vp)][vp % NPT := 0]]
    requires f in v.own && v.own[f] == User(vp)
    requires |v'.mem| == |v.mem| && (forall g :: 0 <= g < |v.mem| && g != f ==> v'.mem[g] == mem1[g])
    requires v'.own == v.own - {f} && v'.free == [f] + v.free
    ensures TreeOk(v'.mem, pd, v'.own) && Cleared(v, v', pd, {vp})
  {
    UserCleared(v.mem, mem1, pd, v.own, vp);
    EntrySet(v.mem, mem1, pd, v.own, vp, 0);
    TreeSame(mem1, v'.mem, pd, v'.own);
    assert v.own[pd] == Dir;
    forall g | g in v.own ensures MappedIn(v.own, g, {vp}) <==> g == f {
      assert UsedAs(v.mem, pd, g, v.own[g]);
    }
    forall q | 0 <= q < VPAGES
      ensures Walk(v'.mem, pd, q) == if q in {vp} && Present(Walk(v.mem, pd, q)) then 0 else Walk(v.mem, pd, q)
    {
      assert Walk(v'.mem, pd, q) == Walk(mem1, pd, q);
    }
    assert v.own[TableOf(v.mem, pd, vp)] == Tab(vp / NPT) by {
      assert Present(v.mem[pd][vp / NPT]);
    }
  }

  datatype CopyResult = Copied | NoMemory | Panic

  datatype FillResult = PageFilled | FrameLost | NoFrame

  datatype MapResult = Mapped | NoTable | Remap

  class Memory {
    const first: nat                 // the first frame after the kernel
    const data: nat                  // the page of the kernel's writable data
    var mem: seq<Page>
    var head: nat                    // kmem.freelist
    var cnt: int                     // free_frame_cnt
    ghost var free: seq<nat>

    ghost predicate Valid()
      reads this
    {
      && 0 < first && UPAGES + 0x100 < data < UPAGES + NFRAMES
      && |mem| == NFRAMES && cnt == |free|
      && Threaded(mem, first, head, free)
    }

    ghost predicate Space(pd: nat, own: Owner)
      reads this
    {
      Valid() && TreeOk(mem, pd, own) && Apart(own, free) && forall f :: f in own ==> first <= f
    }

    constructor (first: nat, data: nat, mem: seq<Page>)
      requires 0 < first && UPAGES + 0x100 < data < UPAGES + NFRAMES && |mem| == NFRAMES
      ensures Valid() && free == [] && this.first == first && this.data == data && this.mem == mem
    {
      this.first := first;
      this.data := data;
      this.mem := mem;
      this.head := 0;
      this.cnt := 0;
      this.free := [];
    }

    // ---- kalloc.c ----

    method Kfree(f: nat)
      requires Valid() && first <= f < NFRAMES && f !in free
      modifies this
      ensures Valid() && free == [f] + old(free) && mem == old(mem)[f := Junk(old(head))]
    {
      ThreadedSame(mem, mem[f := Junk(head)], first, head, free);
      mem := mem[f := Junk(head)];
      head := f;
      cnt := cnt + 1;
      free := [f] + free;
    }

    method Kalloc() returns (f: nat)
      requires Valid()
      modifies this
      ensures Valid() && mem == old(mem)
      ensures if |old(free)| == 0 then f == 0 && free == [] else f == old(free)[0] && free == old(free)[1..]
      ensures f != 0 ==> first <= f < NFRAMES && f !in free
    {
      f := head;
      if f != 0 {
        ThreadedTail(mem, first, head, free);
        cnt := cnt - 1;
        head := mem[f][0];
        free := free[1..];
      }
    }

    /** freerange: every whole frame in the byte range [vstart, vend) joins the free list, once. */
    method FreeRange(vstart: nat, vend: nat)
      requires Valid() && forall f: nat :: Whole(f, vstart, vend) ==> first <= f < NFRAMES && f !in free
      modifies this
      ensures Valid()
      ensures forall f: nat :: f in free <==> f in old(free) || Whole(f, vstart, vend)
      ensures forall f: nat :: f < NFRAMES && !Whole(f, vstart, vend) ==> mem[f] == old(mem)[f]
    {
      var p := (vstart + PGSIZE - 1) / PGSIZE;
      RangeStart(free, mem, vstart, vend);
      hide Threaded, Whole, RangeFreed;
      while (p + 1) * PGSIZE <= vend
        invariant Valid() && vstart <= p * PGSIZE && RangeFreed(old(free), old(mem), free, mem, vstart, vend, p)
        decreases vend - p * PGSIZE
      {
        IsWhole(p, vstart, vend);
        RangeStep(old(free), old(mem), free, mem, vstart, vend, p, Junk(head));
        Kfree(p);
        p := p + 1;
      }
      RangeEnd(old(free), old(mem), free, mem, vstart, vend, p);
    }

    // ---- walkpgdir and mappages ----

    /** walkpgdir: the table that maps page vp (0 for none), made when alloc is set and a frame is free. */
    method WalkPgdir(pd: nat, vp: nat, alloc: bool, ghost own: Owner) returns (t: nat, ghost own': Owner)
      requires Space(pd, own) && vp < VPAGES
      modifies this
      ensures Space(pd, own')
      ensures t == 0 <==> !HasTable(old(mem), pd, vp) && (!alloc || old(free) == [])
      ensures t != 0 ==> HasTable(mem, pd, vp) && t == TableOf(mem, pd, vp) < NFRAMES
      ensures t != 0 ==> mem[t][vp % NPT] == Walk(mem, pd, vp)
      ensures t == 0 || HasTable(old(mem), pd, vp) ==> mem == old(mem) && own' == own && free == old(free)
      ensures t != 0 && alloc ==> |free| + Cost(old(mem)[pd], vp) == |old(free)|
      ensures t != 0 ==> WithTable(old(mem)[pd], mem[pd], vp)
      ensures t != 0 && !HasTable(old(mem), pd, vp) ==> mem[pd][vp / NPT] == Entry(t, PTE_P + PTE_W + PTE_U)
      ensures forall f: nat, perm: nat | perm < PGSIZE ::
            Mapping(View(old(mem), own, old(free)), View(mem, own', free), pd, vp, 0, f, perm)
    {
      own' := own;
      var e := mem[pd][vp / NPT];
      if e % 2 == 1 {
        assert Present(mem[pd][vp / NPT]);
        t := e / PGSIZE;
        assert own[t] == Tab(vp / NPT);
      } else {
        t := 0;
        if alloc {
          t, own' := NewTable(pd, vp / NPT, own);
        }
      }
      assert t != 0 ==> mem[t][vp % NPT] == Walk(mem, pd, vp);
    }

    /** The half of walkpgdir that makes a table. */
    method NewTable(pd: nat, i: nat, ghost own: Owner) returns (t: nat, ghost own': Owner)
      requires Space(pd, own) && i < NPT && !Present(mem[pd][i])
      modifies this
      ensures Space(pd, own')
      ensures forall q {:trigger Walk(mem, pd, q)} :: 0 <= q < VPAGES ==> Walk(mem, pd, q) == Walk(old(mem), pd, q)
      ensures t == 0 <==> old(free) == []
      ensures t != 0 ==> t < NFRAMES && Present(mem[pd][i]) && t == FrameOf(mem[pd][i])
      ensures t != 0 ==> mem[pd][i] == Entry(t, PTE_P + PTE_W + PTE_U)
      ensures t == 0 ==> mem == old(mem) && own' == own && free == old(free)
      ensures t != 0 ==> free == old(free)[1..]
      ensures t != 0 ==> forall j :: 0 <= j < NPT && j != i ==> mem[pd][j] == old(mem)[pd][j]
      ensures Grown(View(old(mem), own, old(free)), View(mem, own', free), {})
      ensures Kept(View(old(mem), own, old(free)), View(mem, own', free))
    {
      own' := own;
      t := Kalloc();
      if t != 0 {
        assert t in old(free);
        mem := mem[t := Zeroes()];
        mem := mem[pd := mem[pd][i := Entry(t, PTE_P + PTE_W + PTE_U)]];
        TableAdded(old(mem), mem, pd, own, i, t, PTE_P + PTE_W + PTE_U);
        own' := own[t := Tab(i)];
        TableTaken(View(old(mem), own, old(free)), View(mem, own', free), pd, i, t);
        ThreadedSame(old(mem), mem, first, head, free);
      }
    }

    /** Frame f is neither free nor part of the address space. */
    ghost predicate Unowned(f: nat, own: Owner)
      reads this
    {
      first <= f < NFRAMES && f !in own && f !in free
    }

    /** One turn of mappages' loop.  A user page takes ownership of the frame it maps. */
    method MapOne(pd: nat, vp: nat, f: nat, perm: nat, ghost own: Owner) returns (r: MapResult, ghost own': Owner)
      requires Space(pd, own) && vp < VPAGES && perm < PGSIZE && (vp < UPAGES ==> Unowned(f, own))
      modifies this
      ensures Space(pd, own')
      ensures Mapping(View(old(mem), own, old(free)), View(mem, own', free), pd, vp,
                      if r == Mapped then 1 else 0, f, perm)
      ensures r == Remap <==> Present(Walk(old(mem), pd, vp))
      ensures r == NoTable <==> !HasTable(old(mem), pd, vp) && old(free) == []
      ensures r != Mapped ==> mem == old(mem) && own' == own && free == old(free)
      ensures r == Mapped ==> |free| + Cost(old(mem)[pd], vp) == |old(free)| && WithTable(old(mem)[pd], mem[pd], vp)
    {
      PresentHasTable(mem, pd, vp);
      ghost var v := View(mem, own, free);
      var t;
      t, own' := WalkPgdir(pd, vp, true, own);
      ghost var v1 := View(mem, own', free);
      MappingBeyond(v, v1, pd, vp, 0, f, perm, vp);
      hide TreeOk, Threaded, Apart, Walk, Given, HasTable, TableOf, Entry, Mapping;
      if t == 0 {
        return NoTable, own;
      }
      if mem[t][vp % NPT] % 2 == 1 {
        return Remap, own';
      }
      r := Mapped;
      assert vp < UPAGES ==> Unowned(f, own') by {
        if vp < UPAGES {
          StillUnowned(v, v1, pd, vp, f, perm);
        }
      }
      own' := SetEntry(pd, t, vp, f, perm, own');
      MappingAfterTable(v, v1, View(mem, own', free), pd, vp, f, perm);
    }

    /** *pte = pa | perm | PTE_P, in the existing table t of page vp. */
    method SetEntry(pd: nat, t: nat, vp: nat, f: nat, perm: nat, ghost own: Owner) returns (ghost own': Owner)
      requires Space(pd, own) && vp < VPAGES && perm < PGSIZE
      requires HasTable(mem, pd, vp) && t == TableOf(mem, pd, vp) < NFRAMES && !Present(Walk(mem, pd, vp))
      requires vp < UPAGES ==> Unowned(f, own)
      modifies this`mem
      ensures Space(pd, own') && mem[pd] == old(mem)[pd]
      ensures Mapping(View(old(mem), own, free), View(mem, own', free), pd, vp, 1, f, perm)
    {
      own' := if vp < UPAGES then own[f := User(vp)] else own;
      mem := mem[t := mem[t][vp % NPT := Entry(f, perm)]];
      EntryMapping(View(old(mem), own, free), View(mem, own', free), pd, t, vp, f, perm);
      ThreadedSame(old(mem), mem, first, head, free);
    }

    /** mappages: map the pages that hold [va, va + size) to the frames from pa on.  It stops at a page
        that is mapped already (a panic) or whose table cannot be made: page `at`. */
    method MapPages(pd: nat, va: nat, size: nat, pa: nat, perm: nat, ghost own: Owner)
      returns (r: MapResult, ghost own': Owner, ghost at: nat)
      requires Space(pd, own) && 0 < size && va + size <= VPAGES * PGSIZE && perm < PGSIZE
      requires va / PGSIZE >= UPAGES || (va / PGSIZE == (va + size - 1) / PGSIZE && Unowned(pa / PGSIZE, own))
      modifies this
      ensures Space(pd, own') && va / PGSIZE <= at <= (va + size - 1) / PGSIZE + 1 <= VPAGES
      ensures r == Mapped <==> at == (va + size - 1) / PGSIZE + 1
      ensures MappedTo(View(old(mem), own, old(free)), View(mem, own', free), pd, va / PGSIZE, at, pa / PGSIZE, perm)
      ensures r == Remap ==> Present(Walk(old(mem), pd, at))
      ensures r == NoTable ==> free == [] && NewTab(old(mem)[pd], va / PGSIZE, at)
    {
      ghost var lo, f0, v := va / PGSIZE, pa / PGSIZE, View(mem, own, free);
      PdInMem(mem, pd, own);
      var a, last, f := va / PGSIZE, (va + size - 1) / PGSIZE, pa / PGSIZE;
      own' := own;
      MapStart(v, pd, lo, f, perm);
      hide TreeOk, Threaded, Apart, Walk, Given, HasTable, TableOf, Entry, Mapping, Present;
      hide MappedTo, WithTable, NewTab, Cost;
      while true
        invariant lo <= a <= last < VPAGES && f == f0 + (a - lo)
        invariant Space(pd, own') && MappedTo(v, View(mem, own', free), pd, lo, a, f0, perm)
        invariant lo < UPAGES ==> a == lo == last && Unowned(f, own')
        decreases last - a
      {
        ghost var v1 := View(mem, own', free);
        var next := a + 1;
        PdInMem(mem, pd, own');
        r, own' := MapOne(pd, a, f, perm, own');
        if r != Mapped {
          at := a;
          MapStopped(v, v1, pd, lo, a, f0, perm);
          return;
        }
        PdInMem(mem, pd, own');
        MapAdvance(v, v1, View(mem, own', free), pd, lo, a, next, f0, f, perm);
        if a == last {
          at := next;
          return;
        }
        a := next;
        f := f + 1;
      }
    }

    /** mappages on whole pages of the kernel's half. */
    method MapKernel(pd: nat, e: Kmap, ghost own: Owner) returns (ok: bool, ghost own': Owner)
      requires Space(pd, own) && UPAGES <= e.lo && 0 < e.n && e.lo + e.n <= VPAGES && e.perm < PGSIZE
      requires forall q {:trigger Walk(mem, pd, q)} :: e.lo <= q < e.lo + e.n ==> !Present(Walk(mem, pd, q))
      modifies this
      ensures Space(pd, own')
      ensures var v, v' := View(old(mem), own, old(free)), View(mem, own', free);
              Grown(v, v', {}) && Kept(v, v') && (ok ==> RangeMapped(v, v', pd, e.lo, e.n, e.frame, e.perm))
      ensures var need := |Absent(old(mem)[pd], e.lo, e.lo + e.n)|;
              if ok then |free| + need == |old(free)| && DirAfter(old(mem)[pd], mem[pd], e.lo, e.lo + e.n)
              else free == [] && |old(free)| < need
    {
      hide TreeOk, Threaded, Apart, Walk, HasTable, TableOf, Entry, Present, RangeMapped, Grown, Kept;
      hide Absent, NewTab, DirAfter;
      PdInMem(mem, pd, own);
      var r;
      ghost var at;
      assert (e.lo * PGSIZE) / PGSIZE == e.lo && (e.frame * PGSIZE) / PGSIZE == e.frame;
      assert (e.lo * PGSIZE + e.n * PGSIZE - 1) / PGSIZE == e.lo + e.n - 1;
      r, own', at := MapPages(pd, e.lo * PGSIZE, e.n * PGSIZE, e.frame * PGSIZE, e.perm, own);
      ok := r == Mapped;
      AbsentMore(old(mem)[pd], e.lo, at, e.lo + e.n);
    }

    /** setupkvm: a directory that holds exactly the kernel's mappings, exactly when there are frames
        for it and its tables, or 0.  On failure the frames in `own` stay taken, as the source leaves
        them. */
    method SetupKvm() returns (pd: nat, ghost own: Owner)
      requires Valid()
      modifies this
      ensures Valid() && Apart(own, free)
      ensures Grown(View(old(mem), map[], old(free)), View(mem, own, free), {})
      ensures Kept(View(old(mem), map[], old(free)), View(mem, own, free))
      ensures pd != 0 <==> |old(free)| >= KERNEL_FRAMES
      ensures pd == 0 ==> free == []
      ensures pd != 0 ==> pd == old(head) && Space(pd, own) && KernelOnly(mem, pd, data, 4)
      ensures pd != 0 ==> |free| + KERNEL_FRAMES == |old(free)| && pd < |mem| && TabsAre(mem[pd], KernelTabs(data, 4))
    {
      ghost var v0 := View(mem, map[], free);
      hide TreeOk, Threaded, Apart, Walk, Grown, Kept, KernelOnly, TabsAre, KernelTabs, Span;
      KernelTabsAll(data);
      pd, own := NewDirectory();
      if pd == 0 {
        return;
      }
      var k := 0;
      while k < 4
        invariant 0 <= k <= 4
        invariant Space(pd, own) && KernelOnly(mem, pd, data, k) && pd < |mem| && TabsAre(mem[pd], KernelTabs(data, k))
        invariant Grown(v0, View(mem, own, free), {}) && Kept(v0, View(mem, own, free))
        invariant |free| + 1 + |KernelTabs(data, k)| == |v0.free|
      {
        var ok;
        ok, own := NextKernel(pd, k, own, v0);
        if !ok {
          KernelTabsMore(data, k + 1, 4);
          pd := 0;
          return;
        }
        k := k + 1;
      }
    }

    /** A zeroed page directory, or 0. */
    method NewDirectory() returns (pd: nat, ghost own: Owner)
      requires Valid()
      modifies this
      ensures Valid() && Apart(own, free)
      ensures Grown(View(old(mem), map[], old(free)), View(mem, own, free), {})
      ensures Kept(View(old(mem), map[], old(free)), View(mem, own, free))
      ensures pd == 0 ==> old(free) == free == []
      ensures pd != 0 ==> pd == old(head) && Space(pd, own) && KernelOnly(mem, pd, data, 0)
      ensures pd != 0 ==> |free| + 1 == |old(free)| && pd < |mem| && TabsAre(mem[pd], KernelTabs(data, 0))
      ensures |KernelTabs(data, 0)| == 0
    {
      own := map[];
      pd := Kalloc();
      if pd != 0 {
        assert pd in old(free);
        mem := mem[pd := Zeroes()];
        ThreadedSame(old(mem), mem, first, head, free);
        EmptyTree(mem, pd);
        own := map[pd := Dir];
      }
    }

    /** One turn of setupkvm's loop.  v0 is the state at its start. */
    method NextKernel(pd: nat, k: nat, ghost own: Owner, ghost v0: View) returns (ok: bool, ghost own': Owner)
      requires Space(pd, own) && k < 4 && KernelOnly(mem, pd, data, k) && TabsAre(mem[pd], KernelTabs(data, k))
      requires Grown(v0, View(mem, own, free), {}) && Kept(v0, View(mem, own, free))
      modifies this
      ensures Space(pd, own') && Grown(v0, View(mem, own', free), {}) && Kept(v0, View(mem, own', free))
      ensures ok ==> KernelOnly(mem, pd, data, k + 1) && pd < |mem| && TabsAre(mem[pd], KernelTabs(data, k + 1))
      ensures ok ==> |free| + |KernelTabs(data, k + 1)| == |old(free)| + |KernelTabs(data, k)|
      ensures !ok ==> free == [] && |old(free)| + |KernelTabs(data, k)| < |KernelTabs(data, k + 1)|
    {
      PdInMem(mem, pd, own);
      hide TreeOk, Threaded, Apart, Walk, HasTable, TableOf, Entry, Present, Grown, Kept;
      hide Absent, DirAfter, TabsAre, KernelTabs;
      var e := KmapTable(data)[k];
      forall q {:trigger Walk(mem, pd, q)} | e.lo <= q < e.lo + e.n ensures q < VPAGES && !Present(Walk(mem, pd, q)) {
        KmapDisjoint(data, k, q);
        KernelNext(mem, pd, data, k, q);
      }
      KmapDisjoint(data, k, 0);
      ok, own' := MapKernel(pd, e, own);
      PdInMem(mem, pd, own');
      KernelCost(data, k, old(mem)[pd], mem[pd], e);
      TablesAdded(v0, View(old(mem), own, old(free)), View(mem, own', free));
      if ok {
        KernelMore(View(old(mem), own, old(free)), View(mem, own', free), pd, data, k, e);
      }
    }

    // ---- allocuvm ----

    /** mappages on one user page, as allocuvm, copyuvm and the page-fault handler call it. */
    method MapUser(pd: nat, vp: nat, f: nat, perm: nat, ghost own: Owner) returns (r: MapResult, ghost own': Owner)
      requires Space(pd, own) && vp < UPAGES && perm < PGSIZE && Unowned(f, own)
      modifies this
      ensures Space(pd, own')
      ensures Mapping(View(old(mem), own, old(free)), View(mem, own', free), pd, vp,
                      if r == Mapped then 1 else 0, f, perm)
      ensures r == Remap ==> Present(Walk(old(mem), pd, vp))
      ensures r == NoTable <==> !Present(old(mem)[pd][vp / NPT]) && old(free) == []
      ensures r != Mapped ==> mem == old(mem) && own' == own && free == old(free)
      ensures r == Mapped ==> |free| + Cost(old(mem)[pd], vp) == |old(free)| && WithTable(old(mem)[pd], mem[pd], vp)
    {
      PdInMem(mem, pd, own);
      PresentHasTable(mem, pd, vp);
      OnePage(mem[pd], vp, vp + 1);
      hide TreeOk, Threaded, Apart, Walk, TableOf, Present, Mapping;
      hide MappedTo, NewTab, WithTable, Absent;
      ghost var at;
      var va, pa := vp * PGSIZE, f * PGSIZE;
      assert va / PGSIZE == vp && (va + PGSIZE - 1) / PGSIZE == vp && pa / PGSIZE == f;
      r, own', at := MapPages(pd, va, PGSIZE, pa, perm, own);
      OneMapped(View(old(mem), own, old(free)), View(mem, own', free), pd, vp, at, f, perm);
    }

    /** kalloc, then memset to zero. */
    method TakeZeroed(pd: nat, ghost own: Owner) returns (m: nat)
      requires Space(pd, own)
      modifies this
      ensures Space(pd, own)
      ensures m == 0 <==> old(free) == []
      ensures if m == 0 then mem == old(mem) && free == [] else m == old(free)[0] && free == old(free)[1..]
      ensures m != 0 ==> Unowned(m, own) && mem == old(mem)[m := Zeroes()]
    {
      m := Kalloc();
      if m != 0 {
        mem := mem[m := Zeroes()];
        ZeroedFrame(View(old(mem), own, old(free)), mem, pd, m);
        ThreadedSame(old(mem), mem, first, head, free);
        assert m in old(free);
      }
    }

    /** One turn of allocuvm's loop: a zeroed frame for page vp.  When its table cannot be made the frame
        is lost, as the source ignores mappages' result. */
    method AllocPage(pd: nat, vp: nat, ghost own: Owner)
      returns (r: FillResult, ghost own': Owner, ghost lost: set<nat>)
      requires Space(pd, own) && vp < UPAGES && (free != [] ==> !Present(Walk(mem, pd, vp)))
      modifies this
      ensures Space(pd, own')
      ensures r == NoFrame <==> old(free) == []
      ensures r == NoFrame ==> mem == old(mem) && own' == own && free == []
      ensures r == FrameLost <==> |old(free)| == 1 == Cost(old(mem)[pd], vp)
      ensures r == FrameLost ==> Stranded(View(old(mem), own, old(free)), View(mem, own', free), lost)
      ensures r != FrameLost ==> lost == {}
      ensures r == PageFilled ==> FilledPage(View(old(mem), own, old(free)), View(mem, own', free), pd, vp)
      ensures r == PageFilled ==>
            |free| + 1 + Cost(old(mem)[pd], vp) == |old(free)| && WithTable(old(mem)[pd], mem[pd], vp)
    {
      ghost var v := View(mem, own, free);
      PdInMem(mem, pd, own);
      hide TreeOk, Threaded, Apart, Walk, HasTable, TableOf, Present, Mapping, FilledPage, WithTable;
      var m := TakeZeroed(pd, own);
      if m == 0 {
        return NoFrame, own, {};
      }
      ghost var v1 := View(mem, own, free);
      ZeroedFrame(v, mem, pd, m);
      assert Walk(mem, pd, vp) == Walk(v.mem, pd, vp) && mem[pd] == v.mem[pd];
      var q;
      q, own' := MapUser(pd, vp, m, PTE_W + PTE_U, own);
      if q == Mapped {
        FilledOne(v, v1, View(mem, own', free), pd, vp, m);
        return PageFilled, own', {};
      } else {
        return FrameLost, own', {m};
      }
    }

    /** allocuvm: new zeroed pages up to newsz, exactly when the free frames cover the pages and their
        new tables; `lost` holds the frame that is stranded otherwise, if any. */
    method AllocUvm(pd: nat, oldsz: nat, newsz: nat, ghost own: Owner)
      returns (r: nat, ghost own': Owner, ghost lost: set<nat>)
      requires Space(pd, own) && (newsz < UPAGES * PGSIZE ==> RangeFree(mem, pd, PageUp(oldsz), PageUp(newsz)))
      modifies this
      ensures Space(pd, own')
      ensures Allocated(View(old(mem), own, old(free)), View(mem, own', free), pd, oldsz, newsz, r, lost)
    {
      ghost var v := View(mem, own, free);
      own', lost := own, {};
      if newsz >= UPAGES * PGSIZE {
        return 0, own, {};
      }
      if newsz < oldsz {
        return oldsz, own, {};
      }
      ghost var lo, hi := PageUp(oldsz), PageUp(newsz);
      var a := (oldsz + PGSIZE - 1) / PGSIZE;
      PdInMem(mem, pd, own);
      AllocStart(v, pd, oldsz, newsz);
      hide TreeOk, Threaded, Apart, Walk, HasTable, TableOf, Present, Progress, Stranded, FilledPage, Cleared, Visited;
      hide PageUp, Allocated, RangeFree, WithTable, Cost;
      while a * PGSIZE < newsz
        invariant lo == PageUp(oldsz) && hi == PageUp(newsz) && lo <= a <= hi <= UPAGES
        invariant Space(pd, own') && Progress(v, View(mem, own', free), pd, lo, a, lost)
      {
        ghost var v1 := View(mem, own', free);
        BelowPageUp(a, newsz);
        PageUnmapped(v, v1, pd, lo, a, hi, lost);
        PdInMem(mem, pd, own');
        var q;
        ghost var more;
        q, own', more := AllocPage(pd, a, own');
        PdInMem(mem, pd, own');
        if q == NoFrame {
          ghost var own1;
          var s;
          s, own1 := DeallocUvm(pd, newsz, oldsz, own');
          AllocFailed(v, v1, View(mem, own1, free), pd, a, oldsz, newsz, lost);
          return 0, own1, lost;
        }
        var next := a + 1;
        ProgressStep(v, v1, View(mem, own', free), pd, lo, a, next, q, lost, more);
        lost := lost + more;
        a := next;
      }
      BelowPageUp(a, newsz);
      AllocFinished(v, View(mem, own', free), pd, a, oldsz, newsz, lost);
      return newsz, own', lost;
    }

    /** allocuvm over a range in which page f is mapped already, and no page before it: mappages panics
        exactly if the frames last up to that page and one more.  Otherwise the call fails, and pages
        outside the range are as they were. */
    method AllocOver(pd: nat, oldsz: nat, newsz: nat, ghost f: nat, ghost own: Owner)
      returns (panics: bool, r: nat, ghost own': Owner)
      requires Space(pd, own) && oldsz <= newsz < UPAGES * PGSIZE && PageUp(oldsz) <= f < PageUp(newsz)
      requires RangeFree(mem, pd, PageUp(oldsz), f) && Present(Walk(mem, pd, f))
      modifies this
      ensures Space(pd, own') && pd < |mem| && pd < |old(mem)|
      ensures panics <==> |old(free)| > Need(old(mem)[pd], PageUp(oldsz), f)
      ensures !panics ==> r == 0 && SameOutside(old(mem), mem, pd, PageUp(oldsz), PageUp(newsz))
    {
      ghost var v, lo, hi := View(mem, own, free), PageUp(oldsz), PageUp(newsz);
      ghost var lost := {};
      own' := own;
      var a := (oldsz + PGSIZE - 1) / PGSIZE;
      PdInMem(mem, pd, own);
      AllocStart(v, pd, oldsz, newsz);
      hide TreeOk, Threaded, Apart, Walk, HasTable, TableOf, Present, Progress, Stranded, FilledPage, Cleared, Visited;
      hide PageUp, RangeFree, WithTable, Cost, Need, SameOutside;
      BelowPageUp(a, newsz);
      while a * PGSIZE < newsz
        invariant lo == PageUp(oldsz) && hi == PageUp(newsz) && lo <= a <= f < hi <= UPAGES && a * PGSIZE < newsz
        invariant Space(pd, own') && Progress(v, View(mem, own', free), pd, lo, a, lost)
      {
        ghost var v1 := View(mem, own', free);
        PdInMem(mem, pd, own');
        OverPage(v, v1, pd, lo, a, f, lost);
        var w := ReadEntry(pd, a, own');
        if w % 2 == 1 {
          var m := Kalloc();
          if m != 0 {
            return true, 0, own';
          }
        }
        var q;
        ghost var more;
        q, own', more := AllocPage(pd, a, own');
        PdInMem(mem, pd, own');
        if q == NoFrame {
          var s;
          s, own' := DeallocUvm(pd, newsz, oldsz, own');
          PdInMem(mem, pd, own');
          OverFailed(v, v1, View(mem, own', free), pd, lo, a, f, hi, lost);
          return false, 0, own';
        }
        var next := a + 1;
        ProgressStep(v, v1, View(mem, own', free), pd, lo, a, next, q, lost, more);
        lost := lost + more;
        a := next;
        BelowPageUp(a, newsz);
      }
      assert false;
    }

    // ---- deallocuvm and freevm ----

    /** One turn of deallocuvm's loop where the table exists. */
    method DropPage(pd: nat, t: nat, vp: nat, ghost own: Owner) returns (ghost own': Owner)
      requires Space(pd, own) && vp < UPAGES && HasTable(mem, pd, vp) && t == TableOf(mem, pd, vp) < NFRAMES
      modifies this
      ensures Space(pd, own')
      ensures Cleared(View(old(mem), own, old(free)), View(mem, own', free), pd, {vp})
    {
      ghost var v := View(mem, own, free);
      assert mem[t][vp % NPT] == Walk(mem, pd, vp);
      own' := own;
      var w := mem[t][vp % NPT];
      if w % 2 == 1 {
        assert Present(Walk(mem, pd, vp));
        var f := w / PGSIZE;
        assert own[f] == User(vp);
        Kfree(f);
        mem := mem[t := mem[t][vp % NPT := 0]];
        own' := own - {f};
        Dropped(v, View(mem, own', free), pd, t, vp, f);
        ThreadedSame(old(mem)[f := Junk(old(head))], mem, first, head, free);
      } else {
        ClearedAbsent(v, pd, vp);
      }
    }

    /** deallocuvm: unmap the pages its loop visits between newsz and oldsz, rounded up. */
    method DeallocUvm(pd: nat, oldsz: nat, newsz: nat, ghost own: Owner) returns (r: nat, ghost own': Owner)
      requires Space(pd, own) && oldsz <= UPAGES * PGSIZE
      modifies this
      ensures Space(pd, own')
      ensures r == if newsz >= oldsz then oldsz else newsz
      ensures newsz >= oldsz ==> mem == old(mem) && own' == own && free == old(free)
      ensures newsz < oldsz ==>
                Cleared(View(old(mem), own, old(free)), View(mem, own', free), pd,
                    Visited(old(mem)[pd], PageUp(newsz), PageUp(oldsz)))
    {
      own' := own;
      if newsz >= oldsz {
        return oldsz, own;
      }
      ghost var v, lo, hi := View(mem, own, free), PageUp(newsz), PageUp(oldsz);
      ghost var all := Visited(mem[pd], lo, hi);
      ghost var seen: set<nat> := {};
      PdInMem(mem, pd, own);
      ClearedNone(v, pd);
      var a := (newsz + PGSIZE - 1) / PGSIZE;
      PageUpMono(oldsz);
      hide TreeOk, Threaded, Apart, Walk, HasTable, TableOf, Present, Cleared, Visited, Mapping, PageUp;
      while a * PGSIZE < oldsz
        invariant hi == PageUp(oldsz) <= UPAGES && Space(pd, own') && pd < |mem|
        invariant Cleared(v, View(mem, own', free), pd, seen)
        invariant seen + Visited(mem[pd], a, hi) == all
        decreases oldsz - a * PGSIZE
      {
        ghost var v1 := View(mem, own', free);
        ghost var at := a;
        BelowPageUp(a, oldsz);
        VisitStep(mem, pd, a, hi, seen, all);
        var t;
        ghost var own1;
        t, own1 := WalkPgdir(pd, a, false, own');
        if t == 0 {
          AbsentCleared(v, v1, pd, seen, a);
          a := a + (NPT - 1);
        } else {
          own' := DropPage(pd, t, a, own');
          DirKept(v1, View(mem, own', free), pd, {a});
          ClearedMore(v, v1, View(mem, own', free), pd, seen, a);
        }
        seen := seen + {at};
        a := a + 1;
        assert a == if t == 0 then at + NPT else at + 1;
      }
      BelowPageUp(a, oldsz);
      VisitEnd(mem[pd], a, hi);
      return newsz, own';
    }

    /** freevm: every frame of the address space, and no other, is free again. */
    method FreeVm(pd: nat, ghost own: Owner)
      requires Space(pd, own)
      modifies this
      ensures Valid()
      ensures forall g :: g in free <==> g in old(free) || g in own
      ensures cnt == old(cnt) + |own.Keys|
      ensures forall g :: 0 <= g < NFRAMES && g !in own ==> mem[g] == old(mem)[g]
    {
      ghost var v := View(mem, own, free);
      PdInMem(mem, pd, own);
      PageUpAll();
      hide TreeOk, Threaded, Walk, HasTable, Cleared, Visited, PageUp, Distinct;
      ThreadedDistinct(mem, first, head, free);
      var r;
      ghost var own1;
      r, own1 := DeallocUvm(pd, UPAGES * PGSIZE, 0, own);
      ghost var v1 := View(mem, own1, free);
      AllCleared(v, v1, pd);
      PdInMem(mem, pd, own1);
      FreeTables(pd, own1);
      ghost var mem2 := mem;
      Kfree(pd);
      FreedAll(v, v1, mem2, mem, free, pd);
      ThreadedDistinct(mem, first, head, free);
      Gained(v.free, free, own.Keys);
    }

    // ---- copyuvm ----

    /** Two address spaces side by side. */
    ghost predicate Spaces(pd: nat, own: Owner, d: nat, ownd: Owner)
      reads this
    {
      Space(pd, own) && Space(d, ownd) && forall g :: g in own ==> g !in ownd
    }

    /** kalloc, then memmove of frame f. */
    method TakeCopy(f: nat, pd: nat, ghost own: Owner, d: nat, ghost ownd: Owner) returns (m: nat)
      requires Spaces(pd, own, d, ownd) && f < NFRAMES
      modifies this
      ensures Spaces(pd, own, d, ownd)
      ensures m == 0 <==> old(free) == []
      ensures if m == 0 then mem == old(mem) && free == [] else m == old(free)[0] && free == old(free)[1..]
      ensures m != 0 ==> Unowned(m, own) && Unowned(m, ownd) && mem == old(mem)[m := old(mem)[f]]
    {
      m := Kalloc();
      if m != 0 {
        mem := mem[m := mem[f]];
        assert m in old(free);
        FrameWritten(old(mem), mem, pd, own, old(free), m);
        FrameWritten(old(mem), mem, d, ownd, old(free), m);
        ThreadedSame(old(mem), mem, first, head, free);
      }
    }

    /** The page table entry of page q, or 0. */
    method ReadEntry(pd: nat, q: nat, ghost own: Owner) returns (w: nat)
      requires Space(pd, own) && q < VPAGES
      modifies this
      ensures Space(pd, own) && mem == old(mem) && free == old(free) && w == Walk(mem, pd, q)
    {
      var t;
      ghost var own1;
      t, own1 := WalkPgdir(pd, q, false, own);
      w := if t == 0 then 0 else mem[t][q % NPT];
    }

    /** One turn of copyuvm's loop, for page q. */
    method CopyPage(pd: nat, d: nat, q: nat, n: nat, ghost own: Owner, ghost ownd: Owner)
      returns (r: CopyResult, ghost ownd': Owner, ghost lost: set<nat>)
      requires Spaces(pd, own, d, ownd) && q < UPAGES && n == q + 1 && CopiedUpTo(mem, pd, d, q, data)
      modifies this
      ensures Spaces(pd, own, d, ownd')
      ensures SameOwned(old(mem), mem, own)
      ensures r == Panic <==> !Present(Walk(old(mem), pd, q))
      ensures r == Copied ==> CopiedUpTo(mem, pd, d, n, data)
      ensures r == Copied <==> r != Panic && |old(free)| >= 1 + Cost(old(mem)[d], q)
      ensures r == Copied ==> |free| + 1 + Cost(old(mem)[d], q) == |old(free)| && WithTable(old(mem)[d], mem[d], q)
      ensures |lost| == if r == NoMemory then |old(free)| else 0
      ensures SameFrames(View(old(mem), ownd, old(free)), View(mem, ownd', free), lost)
    {
      ghost var v := View(mem, ownd, free);
      ownd', lost := ownd, {};
      PdInMem(mem, pd, own);
      PdInMem(mem, d, ownd);
      NothingLost(v);
      SameOwnedRefl(mem, own);
      hide TreeOk, Walk, Threaded, Apart, Mapping, SameFrames, CopiedUpTo, SameOwned, WithTable;
      var w := ReadEntry(pd, q, own);
      if w % 2 == 0 {
        return Panic, ownd, {};
      }
      var f, flags := w / PGSIZE, w % PGSIZE;
      FrameInMem(mem, pd, own, q);
      var m := TakeCopy(f, pd, own, d, ownd);
      if m == 0 {
        return NoMemory, ownd, {};
      }
      ghost var v1 := View(mem, ownd, free);
      var k;
      k, ownd' := MapUser(d, q, m, flags, ownd);
      ghost var v2 := View(mem, ownd', free);
      CopyFrames(v, v1, v2, own, pd, d, q, m, flags, if k == Mapped then 1 else 0);
      if k == Mapped {
        CopiedOne(v, v1, v2, own, pd, d, q, n, f, m, flags, data);
        return Copied, ownd', {};
      } else {
        NotYetMapped(v, v1, pd, d, m, q, data);
        return NoMemory, ownd', {m};
      }
    }

    /** What copyuvm's loop keeps beside the copied pages: the parent, the frames and their number. */
    ghost predicate CopySoFar(v0: View, dir: Page, pd: nat, d: nat, i: nat, own: Owner, ownd: Owner)
      reads this
    {
      && pd < |v0.mem| && d < |mem| && SameOwned(v0.mem, mem, own) && WalksSame(v0.mem, mem, pd)
      && SameFrames(v0, View(mem, ownd, free), {}) && CopyCount(v0, pd, dir, mem[d], i, |free|)
    }

    /** One turn of the loop, seen from the start of copyuvm. */
    method CopyNext(ghost v0: View, ghost dir: Page, pd: nat, d: nat, i: nat, n: nat, ghost hi: nat, ghost own: Owner,
                    ghost ownd: Owner)
      returns (r: CopyResult, ghost ownd': Owner, ghost lost: set<nat>)
      requires Spaces(pd, own, d, ownd) && i < hi <= UPAGES && n == i + 1 && CopiedUpTo(mem, pd, d, i, data)
      requires CopySoFar(v0, dir, pd, d, i, own, ownd) && TabsAre(dir, KernelTabs(data, 4))
      modifies this
      ensures Spaces(pd, own, d, ownd') && SameOwned(v0.mem, mem, own)
      ensures SameFrames(v0, View(mem, ownd', free), lost)
      ensures r == Copied ==> CopiedUpTo(mem, pd, d, n, data) && CopySoFar(v0, dir, pd, d, n, own, ownd')
      ensures r != Copied ==> Outcome(v0.mem, pd, hi, |v0.free|, r)
      ensures |lost| == if r == NoMemory then CopyLoss(|v0.free|) else 0
    {
      hide TreeOk, Threaded, Apart, Walk, Present, SameFrames, CopiedUpTo, SameOwned, Outcome, CopyCount;
      hide CopyLoss, TabsAre, KernelTabs, WithTable, Cost, WalksSame;
      ghost var v1 := View(mem, ownd, free);
      r, ownd', lost := CopyPage(pd, d, i, n, own, ownd);
      CopyStep(v0, v1, View(mem, ownd', free), pd, own, i, lost);
      PdInMem(mem, d, ownd');
      CopyTurn(v0, pd, data, dir, v1.mem[d], mem[d], i, n, hi, |v1.free|, |free|, r);
    }

    /** copyuvm: a new address space with the kernel's mappings and a copy of every page below sz, on
        frames of its own, exactly when there are frames for all of it.  A page below sz that is not
        present is a panic, if memory lasts that far.  When memory runs out the frames come back,
        except that all are lost if setupkvm fails, and one if the last is taken for a page without a
        table. */
    method CopyUvm(pd: nat, sz: nat, ghost own: Owner)
      returns (r: CopyResult, d: nat, ghost ownd: Owner, ghost lost: set<nat>)
      requires Space(pd, own) && sz <= UPAGES * PGSIZE
      modifies this
      ensures Space(pd, own) && SameOwned(old(mem), mem, own)
      ensures Outcome(old(mem), pd, PageUp(sz), |old(free)|, r)
      ensures r == Copied ==> Spaces(pd, own, d, ownd) && CopiedUpTo(mem, pd, d, PageUp(sz), data)
      ensures r == Copied ==> SameFrames(View(old(mem), map[], old(free)), View(mem, ownd, free), {})
      ensures r == NoMemory ==> SameFrames(View(old(mem), map[], old(free)), View(mem, map[], free), lost)
      ensures |lost| == if r == NoMemory then CopyLoss(|old(free)|) else 0
    {
      ghost var v0 := View(mem, map[], free);
      PageUpMono(sz);
      hide TreeOk, Threaded, Apart, Walk, Present, SameFrames, CopiedUpTo, SameOwned, PageUp, Outcome, CopyCount;
      hide CopyLoss, TabsAre, KernelTabs, WithTable, Cost, WalksSame;
      d, ownd := StartCopy(pd, own);
      if d == 0 {
        NoneCopied(v0.mem, pd, PageUp(sz), |v0.free|);
        return NoMemory, 0, map[], ownd.Keys;
      }
      ghost var dir := mem[d];
      var i := 0;
      while i * PGSIZE < sz
        invariant i <= PageUp(sz) <= UPAGES
        invariant Spaces(pd, own, d, ownd) && CopiedUpTo(mem, pd, d, i, data)
        invariant CopySoFar(v0, dir, pd, d, i, own, ownd)
        decreases sz - i * PGSIZE
      {
        BelowPageUp(i, sz);
        var q;
        var next := i + 1;
        q, ownd, lost := CopyNext(v0, dir, pd, d, i, next, PageUp(sz), own, ownd);
        if q == Panic {
          return Panic, d, ownd, {};
        }
        if q == NoMemory {
          GiveUp(v0, pd, own, d, ownd, lost);
          return NoMemory, 0, map[], lost;
        }
        i := next;
      }
      BelowPageUp(i, sz);
      AllChecked(v0, pd, dir, mem[d], i, |free|);
      return Copied, d, ownd, {};
    }

    /** The start of copyuvm: the kernel's mappings. */
    method StartCopy(pd: nat, ghost own: Owner) returns (d: nat, ghost ownd: Owner)
      requires Space(pd, own)
      modifies this
      ensures Space(pd, own) && SameOwned(old(mem), mem, own) && pd < |mem| && WalksSame(old(mem), mem, pd)
      ensures d == 0 ==> |ownd.Keys| == |old(free)| < KERNEL_FRAMES
      ensures d == 0 ==> SameFrames(View(old(mem), map[], old(free)), View(mem, map[], free), ownd.Keys)
      ensures d != 0 ==> Spaces(pd, own, d, ownd) && CopiedUpTo(mem, pd, d, 0, data)
      ensures d != 0 ==> SameFrames(View(old(mem), map[], old(free)), View(mem, ownd, free), {})
      ensures d != 0 ==> d < |mem| && TabsAre(mem[d], KernelTabs(data, 4))
      ensures d != 0 ==> CopyCount(View(old(mem), map[], old(free)), pd, mem[d], mem[d], 0, |free|)
    {
      ghost var v0 := View(mem, map[], free);
      PdInMem(mem, pd, own);
      ThreadedDistinct(mem, first, head, free);
      hide TreeOk, Threaded, Apart, SameFrames, CopiedUpTo, SameOwned, Grown, Kept, KernelOnly, Distinct, CopyCount;
      hide TabsAre, KernelTabs, WalksSame;
      d, ownd := SetupKvm();
      ParentKept(v0, View(mem, ownd, free), pd, own);
      if d == 0 {
        SetupLost(v0, View(mem, ownd, free));
      } else {
        CopyStart(v0, View(mem, ownd, free), pd, d, data);
        CountStart(v0, pd, mem[d], |free|);
      }
    }

    /** The way out when memory runs out: freevm of the copy. */
    method GiveUp(ghost v0: View, pd: nat, ghost own: Owner, d: nat, ghost ownd: Owner, ghost lost: set<nat>)
      requires Spaces(pd, own, d, ownd) && v0.own == map[]
      requires SameOwned(v0.mem, mem, own) && SameFrames(v0, View(mem, ownd, free), lost)
      modifies this
      ensures Space(pd, own) && SameOwned(v0.mem, mem, own) && SameFrames(v0, View(mem, map[], free), lost)
    {
      ghost var v2 := View(mem, ownd, free);
      hide TreeOk, Threaded, Apart, SameFrames, SameOwned;
      FreeVm(d, ownd);
      AfterFree(v0, v2, View(mem, map[], free), pd, own, lost);
    }

    /** freevm's loop over the directory. */
    method FreeTables(pd: nat, ghost own: Owner)
      requires Space(pd, own) && forall g :: g in own ==> !own[g].User?
      modifies this
      ensures Valid() && pd !in free && first <= pd < NFRAMES
      ensures forall g :: g in free <==> g in old(free) || (g in own && g != pd)
      ensures forall g :: 0 <= g < NFRAMES && g !in own ==> mem[g] == old(mem)[g]
    {
      ghost var dir := mem[pd];
      PdInMem(mem, pd, own);
      var i := 0;
      while i < NPT
        invariant 0 <= i <= NPT && Valid() && mem[pd] == dir
        invariant forall g :: g in free <==> g in old(free) || TableBelow(own, g, i)
        invariant forall g :: 0 <= g < NFRAMES && g !in own ==> mem[g] == old(mem)[g]
      {
        if mem[pd][i] % 2 == 1 {
          assert Present(old(mem)[pd][i]);
          var t := mem[pd][i] / PGSIZE;
          assert t == FrameOf(old(mem)[pd][i]) && own[t] == Tab(i);
          OneTable(old(mem), pd, own, i, t);
          Kfree(t);
        } else {
          NoTableAt(old(mem), pd, own, i);
        }
        i := i + 1;
      }
      AllTables(old(mem), pd, own);
    }
  }

  /** No frame appears or vanishes, but those in lost. */
  ghost predicate SameFrames(v: View, v': View, lost: set<nat>) {
    && (forall g :: g in v'.own || g in v'.free || g in lost <==> g in v.own || g in v.free)
    && (forall g :: g in lost ==> g !in v'.own && g !in v'.free)
  }

  /** v' maps page q to a zeroed, writable user frame that was free in v. */
  predicate NewPage(v: View, v': View, pd: nat, q: nat)
    requires pd < |v'.mem| && q < VPAGES
  {
    var w := Walk(v'.mem, pd, q);
    && Present(w) && FlagsOf(w) == PTE_P + PTE_W + PTE_U
    && FrameOf(w) in v.free && FrameOf(w) < |v'.mem| && v'.mem[FrameOf(w)] == Zeroes()
  }

  /** The pages from lo to hi, unmapped in v, have new zeroed frames in v'; what else v maps, it still
      maps, to the same frames with the same contents. */
  ghost predicate NewPages(v: View, v': View, pd: nat, lo: nat, hi: nat) {
    && pd < |v.mem| && pd < |v'.mem| && hi <= UPAGES
    && (forall q {:trigger Walk(v'.mem, pd, q)} :: 0 <= q < VPAGES && !(lo <= q < hi) ==>
          Walk(v'.mem, pd, q) == Walk(v.mem, pd, q))
    && (forall q {:trigger Walk(v'.mem, pd, q)} :: lo <= q < hi ==>
          !Present(Walk(v.mem, pd, q)) && NewPage(v, v', pd, q))
    && (forall g :: g in v.own ==> g in v'.own && v'.own[g] == v.own[g])
    && Kept(v, v')
  }

  /** The same, and no frame is lost. */
  ghost predicate Filled(v: View, v': View, pd: nat, lo: nat, hi: nat) {
    NewPages(v, v', pd, lo, hi) && Grown(v, v', {})
  }

  /** The last free frame has been taken and zeroed, and is now neither free nor mapped. */
  ghost predicate Stranded(v: View, v': View, lost: set<nat>) {
    && |v.free| == 1 && v.free[0] < |v.mem| && lost == {v.free[0]}
    && v' == View(v.mem[v.free[0] := Zeroes()], v.own, [])
  }

  ghost predicate FilledPage(v: View, v': View, pd: nat, vp: nat) {
    Filled(v, v', pd, vp, vp + 1)
  }

  lemma ZeroedFrame(v: View, mem: seq<Page>, pd: nat, m: nat)
    requires TreeOk(v.mem, pd, v.own) && |v.free| > 0 && m == v.free[0] && m < |v.mem| && Apart(v.own, v.free)
    requires mem == v.mem[m := Zeroes()]
    ensures TreeOk(mem, pd, v.own)
    ensures forall q {:trigger Walk(mem, pd, q)} :: 0 <= q < VPAGES ==> Walk(mem, pd, q) == Walk(v.mem, pd, q)
  {
    assert m in v.free;
    TreeSame(v.mem, mem, pd, v.own);
  }

  lemma FilledOne(v: View, v1: View, v': View, pd: nat, vp: nat, m: nat)
    requires TreeOk(v.mem, pd, v.own) && Apart(v.own, v.free) && vp < UPAGES && !Present(Walk(v.mem, pd, vp))
    requires |v.free| > 0 && m == v.free[0] && m < |v.mem| && m !in v.free[1..]
    requires v1 == View(v.mem[m := Zeroes()], v.own, v.free[1..])
    requires Mapping(v1, v', pd, vp, 1, m, PTE_W + PTE_U)
    ensures FilledPage(v, v', pd, vp)
  {
    hide TreeOk, Apart, Grown, Kept;
    assert m in v.free;
    ZeroedFrame(v, v1.mem, pd, m);
    ZeroKept(v, v1, v', m);
    FilledKept(v, v1, v', m);
    GrownFromFree(v, v1, v', m);
    forall q | 0 <= q < VPAGES && q != vp ensures Walk(v'.mem, pd, q) == Walk(v.mem, pd, q) {
      assert Walk(v1.mem, pd, q) == Walk(v.mem, pd, q);
    }
    assert Walk(v'.mem, pd, vp) == Entry(m, PTE_W + PTE_U);
    assert NewPage(v, v', pd, vp);
  }

  lemma ZeroKept(v: View, v1: View, v': View, m: nat)
    requires Apart(v.own, v.free) && m in v.free && m < |v.mem| && m !in v1.free
    requires v1.mem == v.mem[m := Zeroes()] && v1.own == v.own && Kept(v1, v')
    ensures m < |v'.mem| && v'.mem[m] == Zeroes()
  {
  }

  lemma FilledKept(v: View, v1: View, v': View, m: nat)
    requires |v.free| > 0 && m == v.free[0] && m < |v.mem| == |v1.mem| && v1.own == v.own && v1.free == v.free[1..]
    requires v1.mem == v.mem[m := v1.mem[m]] && Kept(v1, v')
    ensures Kept(v, v')
  {
    forall g | 0 <= g < |v.mem| && g !in v.free && (g in v.own ==> v.own[g].User?) ensures v'.mem[g] == v.mem[g] {
      assert v1.mem[g] == v.mem[g];
    }
  }

  lemma GrownFromFree(v: View, v1: View, v': View, m: nat)
    requires |v.free| > 0 && m == v.free[0] && v1.own == v.own && v1.free == v.free[1..] && Grown(v1, v', {m})
    ensures Grown(v, v', {}) && forall g :: g in v.own ==> g in v'.own && v'.own[g] == v.own[g]
  {
    forall g ensures g in v.free <==> g == m || g in v1.free {
    }
  }

  /** v' maps the same user pages as v, in the same way and with the same contents. */
  ghost predicate Undone(v: View, v': View, pd: nat) {
    && pd < |v.mem| == |v'.mem|
    && (forall q {:trigger Walk(v'.mem, pd, q)} :: 0 <= q < VPAGES ==>
          (Present(Walk(v'.mem, pd, q)) <==> Present(Walk(v.mem, pd, q))) &&
          (Present(Walk(v.mem, pd, q)) ==> Walk(v'.mem, pd, q) == Walk(v.mem, pd, q)))
    && (forall g {:trigger v'.mem[g]} :: g in v.own && v.own[g].User? && g < |v.mem| ==> v'.mem[g] == v.mem[g])
  }

  ghost predicate RangeFree(mem: seq<Page>, pd: nat, lo: nat, hi: nat) {
    pd < |mem| && forall q {:trigger Walk(mem, pd, q)} :: lo <= q < hi && q < UPAGES ==> !Present(Walk(mem, pd, q))
  }

  /** With n free frames allocuvm gets as far as page a, takes the last frame for it, and then finds
      none for the table. */
  predicate StrandsAt(dir: Page, lo: nat, a: nat, n: nat) {
    lo <= a < UPAGES && NewTab(dir, lo, a) && n == Need(dir, lo, a) + 1
  }

  ghost predicate Strands(dir: Page, lo: nat, hi: nat, n: nat) {
    exists a: nat :: a < hi && StrandsAt(dir, lo, a, n)
  }

  /** What allocuvm does from page lo to page hi, by the number of free frames.  With enough for the
      pages and their tables it fills them.  Otherwise a frame is lost exactly when the last one is
      taken for a page without a table.  If that is the last page, the call succeeds all the same with
      the page missing; in every other case of failure all mappings are as they were. */
  ghost predicate Extended(v: View, v': View, pd: nat, lo: nat, hi: nat, newsz: nat, r: nat, lost: set<nat>) {
    pd < |v.mem| &&
    if |v.free| >= Need(v.mem[pd], lo, hi) then r == newsz && lost == {} && Filled(v, v', pd, lo, hi)
    else
      && |lost| == (if Strands(v.mem[pd], lo, hi, |v.free|) then 1 else 0)
      && lo < hi
      && if StrandsAt(v.mem[pd], lo, hi - 1, |v.free|) then r == newsz && NewPages(v, v', pd, lo, hi - 1)
         else r == 0 && Undone(v, v', pd)
  }

  /** What allocuvm promises: it refuses a size in the kernel's half and leaves a smaller size alone. */
  ghost predicate Allocated(v: View, v': View, pd: nat, oldsz: nat, newsz: nat, r: nat, lost: set<nat>) {
    && SameFrames(v, v', lost)
    && if newsz >= UPAGES * PGSIZE then r == 0 && v' == v && lost == {}
       else if newsz < oldsz then r == oldsz && v' == v && lost == {}
       else Extended(v, v', pd, PageUp(oldsz), PageUp(newsz), newsz, r, lost)
  }

  /** The state of allocuvm's loop before page a. */
  ghost predicate Progress(v: View, v': View, pd: nat, lo: nat, a: nat, lost: set<nat>) {
    && pd < |v.mem| == |v'.mem| && lo <= a && SameFrames(v, v', lost)
    && if lost == {} then
         && Filled(v, v', pd, lo, a) && DirAfter(v.mem[pd], v'.mem[pd], lo, a)
         && |v'.free| + Need(v.mem[pd], lo, a) == |v.free|
       else
         && lo < a && v'.free == [] && |lost| == 1
         && NewPages(v, v', pd, lo, a - 1) && StrandsAt(v.mem[pd], lo, a - 1, |v.free|)
  }

  lemma AllocStart(v: View, pd: nat, oldsz: nat, newsz: nat)
    requires pd < |v.mem| && oldsz <= newsz < UPAGES * PGSIZE
    ensures PageUp(oldsz) <= PageUp(newsz) <= UPAGES
    ensures Progress(v, v, pd, PageUp(oldsz), PageUp(oldsz), {})
  {
    DirStart(v.mem[pd], PageUp(oldsz));
  }

  lemma PageUnmapped(v: View, v1: View, pd: nat, lo: nat, a: nat, hi: nat, lost: set<nat>)
    requires Progress(v, v1, pd, lo, a, lost) && RangeFree(v.mem, pd, lo, hi) && lo <= a < hi <= UPAGES
    ensures v1.free != [] ==> !Present(Walk(v1.mem, pd, a))
  {
    if v1.free != [] {
      assert Walk(v1.mem, pd, a) == Walk(v.mem, pd, a);
    }
  }

  /** No page outside lo..hi has changed. */
  ghost predicate SameOutside(mem: seq<Page>, mem': seq<Page>, pd: nat, lo: nat, hi: nat) {
    && pd < |mem| && pd < |mem'|
    && forall q {:trigger Walk(mem', pd, q)} :: 0 <= q < VPAGES && !(lo <= q < hi) ==>
         Walk(mem', pd, q) == Walk(mem, pd, q)
  }

  /** Page a is mapped exactly if it is f; a frame is left for it exactly if there were enough. */
  lemma OverPage(v: View, v1: View, pd: nat, lo: nat, a: nat, f: nat, lost: set<nat>)
    requires Progress(v, v1, pd, lo, a, lost) && RangeFree(v.mem, pd, lo, f) && lo <= a <= f < UPAGES
    requires Present(Walk(v.mem, pd, f))
    ensures Walk(v1.mem, pd, a) % 2 == 1 <==> a == f
    ensures a < f ==> !Present(Walk(v1.mem, pd, a))
    ensures a == f ==> (v1.free != [] <==> |v.free| > Need(v.mem[pd], lo, f))
    ensures v1.free == [] ==> |v.free| <= Need(v.mem[pd], lo, f)
  {
    assert Walk(v1.mem, pd, a) == Walk(v.mem, pd, a);
    NeedMore(v.mem[pd], lo, a, f);
    if lost != {} {
      NeedMore(v.mem[pd], lo, a - 1, f);
    }
  }

  lemma OverFailed(v: View, v1: View, v2: View, pd: nat, lo: nat, a: nat, f: nat, hi: nat, lost: set<nat>)
    requires Progress(v, v1, pd, lo, a, lost) && lo <= a <= f < hi <= UPAGES && pd < |v2.mem|
    requires Cleared(v1, v2, pd, Visited(v1.mem[pd], lo, hi))
    ensures SameOutside(v.mem, v2.mem, pd, lo, hi)
  {
    forall q | 0 <= q < VPAGES && !(lo <= q < hi) ensures Walk(v2.mem, pd, q) == Walk(v.mem, pd, q) {
      assert Walk(v1.mem, pd, q) == Walk(v.mem, pd, q);
      if q in Visited(v1.mem[pd], lo, hi) {
        VisitedRange(v1.mem[pd], lo, hi, q);
      }
    }
  }

  /** allocuvm's way out when there is no frame for page a. */
  lemma AllocFailed(v: View, v1: View, v2: View, pd: nat, a: nat, oldsz: nat, newsz: nat, lost: set<nat>)
    requires oldsz <= newsz < UPAGES * PGSIZE && PageUp(oldsz) <= a < PageUp(newsz) <= UPAGES
    requires Progress(v, v1, pd, PageUp(oldsz), a, lost) && RangeFree(v.mem, pd, PageUp(oldsz), PageUp(newsz))
    requires v1.free == [] && TreeOk(v1.mem, pd, v1.own) && TreeOk(v.mem, pd, v.own) && Apart(v.own, v.free)
    requires Cleared(v1, v2, pd, Visited(v1.mem[pd], PageUp(oldsz), PageUp(newsz)))
    ensures Allocated(v, v2, pd, oldsz, newsz, 0, lost)
  {
    var lo, hi := PageUp(oldsz), PageUp(newsz);
    hide PageUp, RangeFree, Cleared, Visited, TreeOk, Apart, Undone, StrandsAt, Need, Progress;
    FailedUndone(v, v1, v2, pd, lo, a, hi, lost);
    ProgressCount(v, v1, pd, lo, a, lost);
    if lost == {} {
      NoneStrands(v.mem[pd], lo, a, hi, |v.free|);
    } else {
      OneStrands(v.mem[pd], lo, a - 1, hi, |v.free|);
    }
  }

  lemma FailedUndone(v: View, v1: View, v2: View, pd: nat, lo: nat, a: nat, hi: nat, lost: set<nat>)
    requires lo <= a < hi <= UPAGES && Progress(v, v1, pd, lo, a, lost) && RangeFree(v.mem, pd, lo, hi)
    requires TreeOk(v1.mem, pd, v1.own) && TreeOk(v.mem, pd, v.own) && Apart(v.own, v.free)
    requires Cleared(v1, v2, pd, Visited(v1.mem[pd], lo, hi))
    ensures Undone(v, v2, pd) && SameFrames(v, v2, lost)
  {
    FramesCleared(v, v1, v2, lost, pd, Visited(v1.mem[pd], lo, hi));
    var b := if lost == {} then a else a - 1;
    assert NewPages(v, v1, pd, lo, b);
    hide TreeOk, Cleared, Visited, NewPages, Progress, SameFrames, Undone, Apart;
    AllUndone(v, v1, v2, pd, lo, b, hi);
  }

  lemma ProgressCount(v: View, v1: View, pd: nat, lo: nat, a: nat, lost: set<nat>)
    requires Progress(v, v1, pd, lo, a, lost) && v1.free == []
    ensures pd < |v.mem|
    ensures lost == {} ==> |v.free| == Need(v.mem[pd], lo, a)
    ensures lost != {} ==> |lost| == 1 && lo < a && StrandsAt(v.mem[pd], lo, a - 1, |v.free|)
  {
  }

  lemma AllocFinished(v: View, v': View, pd: nat, a: nat, oldsz: nat, newsz: nat, lost: set<nat>)
    requires oldsz <= newsz < UPAGES * PGSIZE && a == PageUp(newsz) <= UPAGES
    requires Progress(v, v', pd, PageUp(oldsz), a, lost)
    ensures Allocated(v, v', pd, oldsz, newsz, newsz, lost)
  {
    if lost != {} {
      OneStrands(v.mem[pd], PageUp(oldsz), a - 1, a, |v.free|);
    }
  }

  /** Frames that just cover the pages up to a strand nowhere. */
  lemma NoneStrands(dir: Page, lo: nat, a: nat, hi: nat, n: nat)
    requires lo <= a < hi <= UPAGES && n == Need(dir, lo, a)
    ensures !Strands(dir, lo, hi, n) && n < Need(dir, lo, hi)
  {
    NeedMore(dir, lo, a, hi);
    forall b | lo <= b < hi ensures !StrandsAt(dir, lo, b, n) {
      if b < a {
        NeedMore(dir, lo, b, a);
      } else {
        NeedMore(dir, lo, a, b);
      }
    }
  }

  /** There is only one page to strand at. */
  lemma OneStrands(dir: Page, lo: nat, a: nat, hi: nat, n: nat)
    requires a < hi <= UPAGES && StrandsAt(dir, lo, a, n)
    ensures Strands(dir, lo, hi, n) && n < Need(dir, lo, hi)
    ensures StrandsAt(dir, lo, hi - 1, n) <==> a == hi - 1
  {
    NeedMore(dir, lo, a, hi);
    NeedMore(dir, lo, a, hi - 1);
  }

  lemma FilledMore(v: View, v1: View, v2: View, pd: nat, lo: nat, a: nat)
    requires Filled(v, v1, pd, lo, a) && Filled(v1, v2, pd, a, a + 1) && lo <= a
    requires TreeOk(v1.mem, pd, v1.own) && Apart(v1.own, v1.free)
    ensures Filled(v, v2, pd, lo, a + 1)
  {
    GrownTwice(v, v1, v2, {}, {});
    KeptTwice(v, v1, v2, {});
    forall q | lo <= q < a + 1 ensures !Present(Walk(v.mem, pd, q)) && NewPage(v, v2, pd, q) {
      if q < a {
        assert NewPage(v, v1, pd, q) && Walk(v2.mem, pd, q) == Walk(v1.mem, pd, q);
        var f := FrameOf(Walk(v1.mem, pd, q));
        assert v1.own[f] == User(q);
        assert v2.mem[f] == v1.mem[f];
      } else {
        assert Walk(v1.mem, pd, q) == Walk(v.mem, pd, q);
        assert NewPage(v1, v2, pd, q);
      }
    }
    forall q | 0 <= q < VPAGES && !(lo <= q < a + 1) ensures Walk(v2.mem, pd, q) == Walk(v.mem, pd, q) {
      assert Walk(v1.mem, pd, q) == Walk(v.mem, pd, q);
    }
  }

  lemma GrownFrames(v: View, v': View)
    requires Grown(v, v', {})
    ensures SameFrames(v, v', {})
  {
    forall g | g in v.own ensures g in v'.own {
    }
  }

  lemma ProgressStep(v: View, v1: View, v2: View, pd: nat, lo: nat, a: nat, next: nat, q: FillResult,
                     lost: set<nat>, more: set<nat>)
    requires Progress(v, v1, pd, lo, a, lost) && v1.free != [] && pd < |v2.mem|
    requires TreeOk(v1.mem, pd, v1.own) && Apart(v1.own, v1.free) && a < UPAGES && next == a + 1 && q != NoFrame
    requires q == FrameLost ==> |v1.free| == 1 == Cost(v1.mem[pd], a) && Stranded(v1, v2, more)
    requires q == PageFilled ==> more == {} && FilledPage(v1, v2, pd, a) && WithTable(v1.mem[pd], v2.mem[pd], a)
    requires q == PageFilled ==> |v2.free| + 1 + Cost(v1.mem[pd], a) == |v1.free|
    ensures Progress(v, v2, pd, lo, next, lost + more)
  {
    if q == PageFilled {
      FilledMore(v, v1, v2, pd, lo, a);
      DirStep(v.mem[pd], v1.mem[pd], v2.mem[pd], lo, a, next);
      GrownFrames(v, v2);
      assert Kept(v, v2);
      assert lost + more == {};
    } else {
      TableNew(v.mem[pd], v1.mem[pd], lo, a);
      StrandedPages(v, v1, v2, pd, lo, a, more);
      StrandedFrames(v, v1, v2, more);
      assert lost + more == more;
    }
    hide Filled, NewPages, SameFrames, DirAfter, StrandsAt;
  }

  lemma StrandedFrames(v: View, v1: View, v2: View, more: set<nat>)
    requires Grown(v, v1, {}) && Apart(v1.own, v1.free) && Stranded(v1, v2, more)
    ensures SameFrames(v, v2, more) && |more| == 1
  {
    assert forall g :: g in v1.free <==> g == v1.free[0];
    GrownFrames(v, v1);
  }

  lemma StrandedPages(v: View, v1: View, v2: View, pd: nat, lo: nat, a: nat, more: set<nat>)
    requires NewPages(v, v1, pd, lo, a) && Grown(v, v1, {}) && TreeOk(v1.mem, pd, v1.own) && Apart(v1.own, v1.free)
    requires Stranded(v1, v2, more)
    ensures NewPages(v, v2, pd, lo, a)
  {
    var m := v1.free[0];
    assert m in v1.free && m in v.free && Kept(v, v1);
    ZeroedFrame(v1, v2.mem, pd, m);
    forall g | 0 <= g < |v.mem| && g !in v.free && (g in v.own ==> v.own[g].User?) ensures v2.mem[g] == v.mem[g] {
      assert v1.mem[g] == v.mem[g];
    }
    assert Kept(v, v2);
    forall q | lo <= q < a ensures !Present(Walk(v.mem, pd, q)) && NewPage(v, v2, pd, q) {
      assert Walk(v2.mem, pd, q) == Walk(v1.mem, pd, q);
      assert NewPage(v, v1, pd, q) && !Present(Walk(v.mem, pd, q));
      assert v1.own[FrameOf(Walk(v1.mem, pd, q))] == User(q);
    }
    forall q {:trigger Walk(v2.mem, pd, q)} | 0 <= q < VPAGES && !(lo <= q < a)
      ensures Walk(v2.mem, pd, q) == Walk(v.mem, pd, q)
    {
      assert Walk(v2.mem, pd, q) == Walk(v1.mem, pd, q);
      assert Walk(v1.mem, pd, q) == Walk(v.mem, pd, q);
    }
    assert forall g :: g in v.own ==> g in v2.own && v2.own[g] == v.own[g];
  }

  lemma FramesCleared(v: View, v1: View, v2: View, lost: set<nat>, pd: nat, pages: set<nat>)
    requires SameFrames(v, v1, lost) && Cleared(v1, v2, pd, pages)
    ensures SameFrames(v, v2, lost)
  {
  }

  /** When memory runs out, deallocuvm removes every page that allocuvm had added, and no other. */
  lemma AllUndone(v: View, v1: View, v2: View, pd: nat, lo: nat, a: nat, hi: nat)
    requires NewPages(v, v1, pd, lo, a) && lo <= a <= hi <= UPAGES && TreeOk(v1.mem, pd, v1.own)
    requires forall q {:trigger Walk(v.mem, pd, q)} :: lo <= q < hi ==> !Present(Walk(v.mem, pd, q))
    requires Cleared(v1, v2, pd, Visited(v1.mem[pd], lo, hi))
    requires TreeOk(v.mem, pd, v.own) && Apart(v.own, v.free)
    ensures Undone(v, v2, pd)
  {
    forall g | g in v.own && v.own[g].User? && g < |v.mem| ensures v2.mem[g] == v.mem[g] {
      UndoneFrame(v, v1, v2, pd, lo, a, hi, g);
    }
    forall q | 0 <= q < VPAGES
      ensures (Present(Walk(v2.mem, pd, q)) <==> Present(Walk(v.mem, pd, q))) &&
              (Present(Walk(v.mem, pd, q)) ==> Walk(v2.mem, pd, q) == Walk(v.mem, pd, q))
    {
      assert Walk(v2.mem, pd, q) ==
        if q in Visited(v1.mem[pd], lo, hi) && Present(Walk(v1.mem, pd, q)) then 0 else Walk(v1.mem, pd, q);
      if lo <= q < a {
        assert NewPage(v, v1, pd, q) && NewPage(v, v1, pd, lo) by {
          assert Present(Walk(v1.mem, pd, lo));
        }
        PresentHasTable(v1.mem, pd, q);
        PresentHasTable(v1.mem, pd, lo);
        VisitsAll(v1.mem[pd], lo, hi, q);
      } else if q in Visited(v1.mem[pd], lo, hi) {
        VisitedRange(v1.mem[pd], lo, hi, q);
      }
    }
  }

  lemma UndoneFrame(v: View, v1: View, v2: View, pd: nat, lo: nat, a: nat, hi: nat, g: nat)
    requires NewPages(v, v1, pd, lo, a) && hi <= UPAGES && TreeOk(v.mem, pd, v.own) && Apart(v.own, v.free)
    requires forall q {:trigger Walk(v.mem, pd, q)} :: lo <= q < hi ==> !Present(Walk(v.mem, pd, q))
    requires Cleared(v1, v2, pd, Visited(v1.mem[pd], lo, hi)) && g in v.own && v.own[g].User? && g < |v.mem|
    ensures g < |v2.mem| && v2.mem[g] == v.mem[g]
  {
    var vp := v.own[g].vp;
    assert UsedAs(v.mem, pd, g, v.own[g]);
    if vp in Visited(v1.mem[pd], lo, hi) {
      VisitedRange(v1.mem[pd], lo, hi, vp);
    }
    assert g in v1.own && g !in v.free && v1.own[g] == User(vp) && Kept(v, v1);
    assert v1.mem[g] == v.mem[g];
    assert g in v2.own;
    assert v2.mem[g] == v1.mem[g];
  }

  /** deallocuvm leaves no page mapped between lo and hi exactly when no mapped page lies in the stretch
      its first 4 MB steps jump over. */
  lemma DeallocComplete(v: View, v': View, pd: nat, lo: nat, hi: nat)
    requires TreeOk(v.mem, pd, v.own) && lo <= hi <= UPAGES && lo < UPAGES
    requires Cleared(v, v', pd, Visited(v.mem[pd], lo, hi))
    ensures (forall q :: lo <= q < hi ==> !Present(Walk(v'.mem, pd, q))) <==>
            (forall q :: lo <= q < hi && Present(Walk(v.mem, pd, q)) ==> !Missed(v.mem[pd], lo, q))
  {
    forall q | lo <= q < hi
      ensures Present(Walk(v'.mem, pd, q)) <==> Present(Walk(v.mem, pd, q)) && Missed(v.mem[pd], lo, q)
    {
      assert Walk(v'.mem, pd, q) == if q in Visited(v.mem[pd], lo, hi) && Present(Walk(v.mem, pd, q)) then 0
            else Walk(v.mem, pd, q);
      if Present(Walk(v.mem, pd, q)) {
        PresentHasTable(v.mem, pd, q);
        VisitedExactly(v.mem[pd], lo, hi, q);
      }
    }
  }

  /** A shrink to NPT + 5 pages, with the second table absent and the third present, never looks at the
      third table's first five pages: what is mapped there stays mapped. */
  lemma DeallocMisses(v: View, v': View, pd: nat, q: nat)
    requires pd < |v.mem| && Present(v.mem[pd][0]) && !Present(v.mem[pd][1]) && Present(v.mem[pd][2])
    requires 2 * NPT <= q < 2 * NPT + 5 && Cleared(v, v', pd, Visited(v.mem[pd], NPT + 5, 3 * NPT))
    ensures Walk(v'.mem, pd, q) == Walk(v.mem, pd, q)
  {
    assert (NPT + 5) / NPT == 1 && q / NPT == 2 && q % NPT < 5;
    VisitedExactly(v.mem[pd], NPT + 5, 3 * NPT, q);
  }

  /** One free frame, a kernel-only address space and no table for page 0: allocuvm reports success,
      page 0 is not mapped, and the frame is gone. */
  method LastFrameStrands() returns (m: Memory, pd: nat, r: nat)
    ensures fresh(m) && m.Valid() && m.free == [] && r == PGSIZE
    ensures pd < |m.mem| && !Present(Walk(m.mem, pd, 0))
  {
    m := BootWith(66);
    hide Threaded, TreeOk, KernelTabs, TabsAre, KernelOnly, RangeFree, Allocated, Walk, Apart, Grown, Kept, PageUp;
    ghost var own, lost;
    pd, own := m.SetupKvm();
    ghost var v := View(m.mem, own, m.free);
    NoUserPages(m.mem, pd, m.data);
    r, own, lost := m.AllocUvm(pd, 0, PGSIZE, own);
    PdInMem(m.mem, pd, own);
    OneFrame(v, View(m.mem, own, m.free), pd, r, lost, m.data);
  }

  /** A memory with n free frames. */
  method BootWith(n: nat) returns (m: Memory)
    requires n < 1000
    ensures fresh(m) && m.Valid() && |m.free| == n
  {
    m := new Memory(1, UPAGES + 0x200, seq(NFRAMES, i => Zeroes()));
    var end := (n + 1) * PGSIZE;
    WholeSpan(n, end);
    hide Threaded, Whole, Span, Distinct;
    m.FreeRange(PGSIZE, end);
    ThreadedDistinct(m.mem, m.first, m.head, m.free);
    FreeCount(m.free);
    SpanSize(1, n + 1);
    assert Frames(m.free) == Span(1, n + 1);
  }

  lemma WholeSpan(n: nat, end: nat)
    requires end == (n + 1) * PGSIZE
    ensures forall f: nat :: Whole(f, PGSIZE, end) <==> f in Span(1, n + 1)
  {
  }

  lemma NoUserPages(mem: seq<Page>, pd: nat, data: nat)
    requires KernelOnly(mem, pd, data, 4)
    ensures RangeFree(mem, pd, 0, 1) && PageUp(0) == 0 && PageUp(PGSIZE) == 1
  {
    KmapDisjoint(data, 4, 0);
  }

  lemma OneFrame(v: View, v': View, pd: nat, r: nat, lost: set<nat>, data: nat)
    requires KernelOnly(v.mem, pd, data, 4) && TabsAre(v.mem[pd], KernelTabs(data, 4)) && |v.free| == 1
    requires Allocated(v, v', pd, 0, PGSIZE, r, lost) && pd < |v'.mem| && Apart(v'.own, v'.free)
    ensures r == PGSIZE && !Present(Walk(v'.mem, pd, 0)) && v'.free == []
  {
    assert UPAGES + 0x100 < data < UPAGES + NFRAMES;
    hide KernelTabs, KernelOnly, TabsAre, StrandsAt, Need, SameFrames, PageUp;
    KernelStrands(v.mem[pd], data);
    NoUserPages(v.mem, pd, data);
    assert Extended(v, v', pd, 0, 1, PGSIZE, r, lost) && Strands(v.mem[pd], 0, 1, 1);
    assert NewPages(v, v', pd, 0, 0);
    assert Walk(v'.mem, pd, 0) == Walk(v.mem, pd, 0);
    OneLost(v, v', lost);
  }

  /** In a directory without user tables the first page takes two frames. */
  lemma KernelStrands(dir: Page, data: nat)
    requires UPAGES + 0x100 < data < UPAGES + NFRAMES && TabsAre(dir, KernelTabs(data, 4))
    ensures StrandsAt(dir, 0, 0, 1) && Need(dir, 0, 1) == 2
  {
    hide Span, KernelTabs;
    KernelTabsAll(data);
    DirStart(dir, 0);
    OnePage(dir, 0, 1);
  }

  lemma EmptyList(free: seq<nat>)
    ensures free == [] <==> Frames(free) == {}
  {
    assert free != [] ==> free[0] in Frames(free);
  }

  lemma OneLost(v: View, v': View, lost: set<nat>)
    requires |v.free| == 1 && SameFrames(v, v', lost) && lost != {} && Apart(v'.own, v'.free)
    requires forall g :: g in v.own ==> g in v'.own
    ensures v'.free == []
  {
    var g :| g in lost;
    assert forall f :: f in v.free <==> f == v.free[0];
    assert g == v.free[0];
    EmptyList(v'.free);
  }

  // ---- copyuvm ----

  /** d maps page q like pd, to a frame with the same contents. */
  predicate CopyOf(mem: seq<Page>, pd: nat, d: nat, q: nat)
    requires pd < |mem| && d < |mem| && q < VPAGES
  {
    var w, x := Walk(mem, pd, q), Walk(mem, d, q);
    && Present(w) && Present(x) && FlagsOf(x) == FlagsOf(w)
    && FrameOf(w) < |mem| && FrameOf(x) < |mem| && mem[FrameOf(x)] == mem[FrameOf(w)]
  }

  /** Below page n, d is a copy of pd; from n on it holds the kernel's mappings only. */
  ghost predicate CopiedUpTo(mem: seq<Page>, pd: nat, d: nat, n: nat, data: nat) {
    && pd < |mem| && d < |mem| && n <= UPAGES && UPAGES + 0x100 < data < UPAGES + NFRAMES
    && (forall q {:trigger Walk(mem, d, q)} :: 0 <= q < n ==> CopyOf(mem, pd, d, q))
    && (forall q {:trigger Walk(mem, d, q)} :: n <= q < VPAGES ==> Walk(mem, d, q) == KernelWord(data, 4, q))
  }

  /** The frames it takes to copy the pages below n: the kernel's, the pages' and their tables'. */
  function CopyNeed(n: nat): nat {
    KERNEL_FRAMES + n + (n + NPT - 1) / NPT
  }

  /** The frames lost by a copy that runs out of memory with n free frames. */
  function CopyLoss(n: nat): nat {
    if n < KERNEL_FRAMES then n else if (n - KERNEL_FRAMES) % (NPT + 1) == 1 then 1 else 0
  }

  /** Every page below n is present. */
  ghost predicate PresentTo(mem: seq<Page>, pd: nat, n: nat) {
    pd < |mem| && n <= UPAGES && forall q {:trigger Walk(mem, pd, q)} :: 0 <= q < n ==> Present(Walk(mem, pd, q))
  }

  /** q is the first page that is not present, and lies below n. */
  ghost predicate HoleAt(mem: seq<Page>, pd: nat, q: int, n: nat) {
    0 <= q < n && PresentTo(mem, pd, q) && !Present(Walk(mem, pd, q))
  }

  lemma CopyNeedMore(n: nat, m: nat)
    requires n <= m
    ensures KERNEL_FRAMES <= CopyNeed(n) <= CopyNeed(m)
  {
  }

  /** How copyuvm ends on pages below hi with n free frames. */
  ghost predicate Outcome(mem: seq<Page>, pd: nat, hi: nat, n: nat, r: CopyResult) {
    && (r == Copied <==> PresentTo(mem, pd, hi) && n >= CopyNeed(hi))
    && (r == Panic <==> exists q: nat :: HoleAt(mem, pd, q, hi) && n >= CopyNeed(q))
  }

  /** The pages below i have been copied, and left f frames. */
  ghost predicate CopyCount(v0: View, pd: nat, dir: Page, dir1: Page, i: nat, f: nat) {
    PresentTo(v0.mem, pd, i) && DirAfter(dir, dir1, 0, i) && f + CopyNeed(i) == |v0.free|
  }

  lemma CountStart(v0: View, pd: nat, dir: Page, f: nat)
    requires pd < |v0.mem| && f + KERNEL_FRAMES == |v0.free|
    ensures CopyCount(v0, pd, dir, dir, 0, f)
  {
    DirStart(dir, 0);
  }

  /** Page i costs a frame, and another if it is the first of its table. */
  lemma CopyNeedStep(data: nat, dir: Page, dir1: Page, i: nat, next: nat)
    requires UPAGES + 0x100 < data < UPAGES + NFRAMES && TabsAre(dir, KernelTabs(data, 4))
    requires i < UPAGES && next == i + 1 && DirAfter(dir, dir1, 0, i)
    ensures CopyNeed(next) == CopyNeed(i) + 1 + Cost(dir1, i)
  {
    hide Span, KernelTabs;
    KernelTabsAll(data);
    TableNew(dir, dir1, 0, i);
    assert !Present(dir[i / NPT]);
    assert i / NPT in Absent(dir, 0, i) <==> i / NPT < TableEnd(0, i);
  }

  lemma CopyLost(i: nat, n: nat)
    requires n <= 1 && CopyNeed(i) + n < CopyNeed(i + 1)
    ensures CopyLoss(CopyNeed(i) + n) == n
  {
    var k, j := i / NPT, i % NPT;
    assert i == k * NPT + j;
    if j == 0 {
      assert (i + NPT - 1) / NPT == k;
      assert CopyNeed(i) + n - KERNEL_FRAMES == k * (NPT + 1) + n;
    } else {
      assert (i + NPT - 1) / NPT == k + 1;
      assert CopyNeed(i) + n - KERNEL_FRAMES == k * (NPT + 1) + (j + 1 + n);
    }
  }

  lemma NoneCopied(mem: seq<Page>, pd: nat, hi: nat, n: nat)
    requires n < KERNEL_FRAMES
    ensures Outcome(mem, pd, hi, n, NoMemory) && CopyLoss(n) == n
  {
  }

  /** One turn of the loop: the outcome, or the count for the next page. */
  lemma CopyTurn(v0: View, pd: nat, data: nat, dir: Page, dir1: Page, dir2: Page, i: nat, next: nat, hi: nat,
                 f1: nat, f2: nat, r: CopyResult)
    requires UPAGES + 0x100 < data < UPAGES + NFRAMES && TabsAre(dir, KernelTabs(data, 4))
    requires CopyCount(v0, pd, dir, dir1, i, f1) && i < hi <= UPAGES && next == i + 1 && pd < |v0.mem|
    requires r == Panic <==> !Present(Walk(v0.mem, pd, i))
    requires r == Copied <==> r != Panic && f1 >= 1 + Cost(dir1, i)
    requires r == Copied ==> f2 + 1 + Cost(dir1, i) == f1 && WithTable(dir1, dir2, i)
    ensures r == Copied ==> CopyCount(v0, pd, dir, dir2, next, f2)
    ensures r != Copied ==> Outcome(v0.mem, pd, hi, |v0.free|, r)
    ensures r == NoMemory ==> CopyLoss(|v0.free|) == f1
  {
    CopyNeedStep(data, dir, dir1, i, next);
    if r == Copied {
      DirStep(dir, dir1, dir2, 0, i, next);
    } else if r == Panic {
      assert HoleAt(v0.mem, pd, i, hi);
    } else {
      CopyLost(i, f1);
      OutOfMemory(v0.mem, pd, i, hi, |v0.free|);
    }
  }

  lemma OutOfMemory(mem: seq<Page>, pd: nat, i: nat, hi: nat, n: nat)
    requires pd < |mem| && PresentTo(mem, pd, i) && i < hi <= UPAGES && Present(Walk(mem, pd, i)) && n < CopyNeed(i + 1)
    ensures Outcome(mem, pd, hi, n, NoMemory)
  {
    CopyNeedMore(i + 1, hi);
    forall q: nat | HoleAt(mem, pd, q, hi) ensures n < CopyNeed(q) {
      assert q > i;
      CopyNeedMore(i + 1, q);
    }
  }

  lemma AllChecked(v0: View, pd: nat, dir: Page, dir1: Page, hi: nat, f: nat)
    requires CopyCount(v0, pd, dir, dir1, hi, f)
    ensures Outcome(v0.mem, pd, hi, |v0.free|, Copied)
  {
  }

  ghost predicate SameOwned(mem: seq<Page>, mem': seq<Page>, own: Owner) {
    |mem'| == |mem| && forall g :: g in own && g < |mem| ==> mem'[g] == mem[g]
  }

  lemma SameOwnedRefl(mem: seq<Page>, own: Owner)
    ensures SameOwned(mem, mem, own)
  {
  }

  lemma NothingLost(v: View)
    ensures SameFrames(v, v, {})
  {
  }

  lemma FrameInMem(mem: seq<Page>, pd: nat, own: Owner, q: nat)
    requires TreeOk(mem, pd, own) && q < UPAGES && Present(Walk(mem, pd, q))
    ensures FrameOf(Walk(mem, pd, q)) < |mem| && FrameOf(Walk(mem, pd, q)) in own
  {
    assert own[FrameOf(Walk(mem, pd, q))] == User(q);
  }

  lemma FrameWritten(mem: seq<Page>, mem': seq<Page>, pd: nat, own: Owner, free: seq<nat>, m: nat)
    requires TreeOk(mem, pd, own) && Apart(own, free) && m in free && m < |mem| == |mem'| && mem' == mem[m := mem'[m]]
    ensures TreeOk(mem', pd, own)
    ensures forall q {:trigger Walk(mem', pd, q)} :: 0 <= q < VPAGES ==> Walk(mem', pd, q) == Walk(mem, pd, q)
  {
    TreeSame(mem, mem', pd, own);
  }

  /** Frame m has been taken from the free list of v and written. */
  ghost predicate FrameTaken(v: View, v1: View, m: nat) {
    && |v.free| > 0 && m == v.free[0] && m !in v.free[1..] && m < |v.mem|
    && |v1.mem| == |v.mem| && v1.mem == v.mem[m := v1.mem[m]] && v1.own == v.own && v1.free == v.free[1..]
  }

  /** The parent's address space is untouched by a page mapped in the child's. */
  lemma CopyFrames(v: View, v1: View, v2: View, own: Owner, pd: nat, d: nat, q: nat, m: nat, flags: nat, done: nat)
    requires TreeOk(v.mem, pd, own) && Apart(own, v.free) && (forall g :: g in own ==> g !in v.own)
    requires FrameTaken(v, v1, m) && Apart(v.own, v.free) && q < UPAGES
    requires Mapping(v1, v2, d, q, done, m, flags) && done <= 1
    ensures SameOwned(v.mem, v2.mem, own) && TreeOk(v2.mem, pd, own) && Apart(own, v2.free)
    ensures (forall g :: g in own ==> g !in v2.own)
    ensures forall x {:trigger Walk(v2.mem, pd, x)} :: 0 <= x < VPAGES ==> Walk(v2.mem, pd, x) == Walk(v.mem, pd, x)
    ensures SameFrames(v, v2, if done == 1 then {} else {m})
  {
    assert m in v.free;
    forall g ensures g in v.free <==> g == m || g in v1.free {
    }
    forall g | g in own && g < |v.mem| ensures v2.mem[g] == v.mem[g] {
      assert v1.mem[g] == v.mem[g];
    }
    TreeSame(v.mem, v2.mem, pd, own);
  }

  lemma CopiedOne(v: View, v1: View, v2: View, own: Owner, pd: nat, d: nat, q: nat, n: nat, f: nat, m: nat,
                  flags: nat, data: nat)
    requires TreeOk(v.mem, pd, own) && Apart(own, v.free) && (forall g :: g in own ==> g !in v.own)
    requires TreeOk(v.mem, d, v.own) && FrameTaken(v, v1, m) && Apart(v.own, v.free) && q < UPAGES && n == q + 1
    requires Present(Walk(v.mem, pd, q)) && f == FrameOf(Walk(v.mem, pd, q)) && flags == FlagsOf(Walk(v.mem, pd, q))
    requires f < |v.mem| && v1.mem[m] == v.mem[f]
    requires Mapping(v1, v2, d, q, 1, m, flags) && CopiedUpTo(v.mem, pd, d, q, data)
    ensures CopiedUpTo(v2.mem, pd, d, n, data)
  {
    CopyFrames(v, v1, v2, own, pd, d, q, m, flags, 1);
    assert m in v.free;
    FrameWritten(v.mem, v1.mem, d, v.own, v.free, m);
    forall x | 0 <= x < VPAGES && x != q ensures Walk(v2.mem, d, x) == Walk(v.mem, d, x) {
      assert Walk(v1.mem, d, x) == Walk(v.mem, d, x);
    }
    CopiedNew(v, v1, v2, own, pd, d, q, f, m, flags);
    forall x | 0 <= x < n ensures CopyOf(v2.mem, pd, d, x) {
      if x < q {
        CopiedBefore(v, v1, v2, own, pd, d, q, m, flags, x);
      }
    }
  }

  /** The page just copied. */
  lemma CopiedNew(v: View, v1: View, v2: View, own: Owner, pd: nat, d: nat, q: nat, f: nat, m: nat, flags: nat)
    requires TreeOk(v.mem, pd, own) && FrameTaken(v, v1, m) && Apart(v.own, v.free) && q < UPAGES
    requires Present(Walk(v.mem, pd, q)) && f == FrameOf(Walk(v.mem, pd, q)) && flags == FlagsOf(Walk(v.mem, pd, q))
    requires f < |v.mem| && v1.mem[m] == v.mem[f] && Mapping(v1, v2, d, q, 1, m, flags)
    requires pd < |v2.mem| && Walk(v2.mem, pd, q) == Walk(v.mem, pd, q) && SameOwned(v.mem, v2.mem, own)
    ensures CopyOf(v2.mem, pd, d, q)
  {
    assert m in v.free;
    FrameInMem(v.mem, pd, own, q);
    assert v2.mem[m] == v1.mem[m];
    assert Walk(v2.mem, d, q) == Entry(m, flags);
  }

  /** A page copied before stays a copy. */
  lemma CopiedBefore(v: View, v1: View, v2: View, own: Owner, pd: nat, d: nat, q: nat, m: nat, flags: nat, x: nat)
    requires TreeOk(v.mem, pd, own) && TreeOk(v.mem, d, v.own) && FrameTaken(v, v1, m) && Apart(v.own, v.free)
    requires x < q < UPAGES
    requires CopyOf(v.mem, pd, d, x) && Kept(v1, v2) && d < |v2.mem| && pd < |v2.mem|
    requires Walk(v2.mem, pd, x) == Walk(v.mem, pd, x) && Walk(v2.mem, d, x) == Walk(v.mem, d, x)
    requires SameOwned(v.mem, v2.mem, own)
    ensures CopyOf(v2.mem, pd, d, x)
  {
    assert m in v.free;
    FrameInMem(v.mem, pd, own, x);
    FrameInMem(v.mem, d, v.own, x);
    var g := FrameOf(Walk(v.mem, d, x));
    assert v.own[g] == User(x);
    assert g !in v.free && v1.mem[g] == v.mem[g];
    assert g !in v1.free;
    assert v2.mem[g] == v1.mem[g];
  }

  lemma NotYetMapped(v: View, v1: View, pd: nat, d: nat, m: nat, q: nat, data: nat)
    requires TreeOk(v.mem, d, v.own) && FrameTaken(v, v1, m) && Apart(v.own, v.free) && q < UPAGES
    requires CopiedUpTo(v.mem, pd, d, q, data)
    ensures !Present(Walk(v1.mem, d, q))
  {
    assert m in v.free;
    FrameWritten(v.mem, v1.mem, d, v.own, v.free, m);
    assert Walk(v1.mem, d, q) == Walk(v.mem, d, q);
    KmapDisjoint(data, 4, q);
  }

  ghost predicate WalksSame(mem: seq<Page>, mem': seq<Page>, pd: nat) {
    && pd < |mem| && pd < |mem'|
    && (forall x {:trigger Walk(mem', pd, x)} :: 0 <= x < VPAGES ==> Walk(mem', pd, x) == Walk(mem, pd, x))
  }

  lemma OwnedSame(mem: seq<Page>, mem': seq<Page>, pd: nat, own: Owner)
    requires TreeOk(mem, pd, own) && SameOwned(mem, mem', own)
    ensures TreeOk(mem', pd, own) && WalksSame(mem, mem', pd)
  {
    TreeSame(mem, mem', pd, own);
  }

  /** setupkvm works on free frames only. */
  lemma ParentKept(v0: View, v: View, pd: nat, own: Owner)
    requires TreeOk(v0.mem, pd, own) && Apart(own, v0.free) && v0.own == map[]
    requires Grown(v0, v, {}) && Kept(v0, v)
    ensures SameOwned(v0.mem, v.mem, own) && TreeOk(v.mem, pd, own) && WalksSame(v0.mem, v.mem, pd)
    ensures Apart(own, v.free)
    ensures forall g :: g in own ==> g !in v.own
    ensures SameFrames(v0, v, {})
  {
    OwnedSame(v0.mem, v.mem, pd, own);
  }

  lemma SetupLost(v0: View, v: View)
    requires SameFrames(v0, v, {}) && Apart(v.own, v.free) && v0.own == map[] && v.free == [] && Distinct(v0.free)
    ensures SameFrames(v0, View(v.mem, map[], v.free), v.own.Keys) && |v.own.Keys| == |v0.free|
  {
    FreeCount(v0.free);
    assert Frames(v0.free) == v.own.Keys;
  }

  lemma CopyStart(v0: View, v: View, pd: nat, d: nat, data: nat)
    requires pd < |v.mem| && KernelOnly(v.mem, d, data, 4)
    ensures CopiedUpTo(v.mem, pd, d, 0, data)
  {
  }

  lemma CopyStep(v0: View, v1: View, v2: View, pd: nat, own: Owner, i: nat, more: set<nat>)
    requires TreeOk(v1.mem, pd, own) && SameOwned(v0.mem, v1.mem, own) && SameOwned(v1.mem, v2.mem, own)
    requires WalksSame(v0.mem, v1.mem, pd) && SameFrames(v0, v1, {}) && SameFrames(v1, v2, more) && i < UPAGES
    ensures SameOwned(v0.mem, v2.mem, own) && WalksSame(v0.mem, v2.mem, pd) && SameFrames(v0, v2, more)
    ensures Walk(v1.mem, pd, i) == Walk(v0.mem, pd, i)
  {
    OwnedSame(v1.mem, v2.mem, pd, own);
    forall x | 0 <= x < VPAGES ensures Walk(v2.mem, pd, x) == Walk(v0.mem, pd, x) {
      assert Walk(v1.mem, pd, x) == Walk(v0.mem, pd, x);
    }
  }

  lemma AfterFree(v0: View, v2: View, v3: View, pd: nat, own: Owner, more: set<nat>)
    requires TreeOk(v2.mem, pd, own) && SameOwned(v0.mem, v2.mem, own) && SameFrames(v0, v2, more)
    requires Apart(own, v2.free)
    requires v0.own == map[] && v3.own == map[] && |v3.mem| == |v2.mem| && (forall g :: g in own ==> g !in v2.own)
    requires forall g :: 0 <= g < |v2.mem| && g !in v2.own ==> v3.mem[g] == v2.mem[g]
    requires forall g :: g in v3.free <==> g in v2.free || g in v2.own
    ensures SameOwned(v0.mem, v3.mem, own) && TreeOk(v3.mem, pd, own) && Apart(own, v3.free)
    ensures SameFrames(v0, v3, more)
  {
    OwnedSame(v2.mem, v3.mem, pd, own);
  }

  lemma ThreadedDistinct(mem: seq<Page>, first: nat, head: nat, free: seq<nat>)
    requires Threaded(mem, first, head, free)
    ensures Distinct(free)
  {
  }

  lemma FreedAll(v: View, v1: View, mem2: seq<Page>, mem: seq<Page>, free: seq<nat>, pd: nat)
    requires pd in v.own && pd in v1.own && (forall g :: g in v1.own ==> g in v.own)
    requires forall g :: g in v1.free || g in v1.own <==> g in v.free || g in v.own
    requires |v.mem| == |v1.mem| == |mem2| == |mem|
    requires (forall g :: 0 <= g < |v.mem| && g !in v.own ==> v1.mem[g] == v.mem[g])
    requires forall g :: 0 <= g < |v.mem| && g !in v1.own ==> mem2[g] == v1.mem[g]
    requires forall g :: 0 <= g < |v.mem| && g != pd ==> mem[g] == mem2[g]
    requires forall g :: g in free <==> g == pd || g in v1.free || (g in v1.own && g != pd)
    ensures forall g :: g in free <==> g in v.free || g in v.own
    ensures forall g :: 0 <= g < |v.mem| && g !in v.own ==> mem[g] == v.mem[g]
  {
  }

  lemma PageUpAll()
    ensures PageUp(0) == 0 && PageUp(UPAGES * PGSIZE) == UPAGES
  {
  }

  predicate TableBelow(own: Owner, g: nat, i: nat) {
    g in own && own[g].Tab? && own[g].i < i
  }

  lemma OneTable(mem: seq<Page>, pd: nat, own: Owner, i: nat, t: nat)
    requires TreeOk(mem, pd, own) && i < NPT && t in own && own[t] == Tab(i)
    ensures forall g :: TableBelow(own, g, i + 1) <==> TableBelow(own, g, i) || g == t
  {
    forall g | TableBelow(own, g, i + 1) && !TableBelow(own, g, i) ensures g == t {
      assert UsedAs(mem, pd, g, own[g]) && UsedAs(mem, pd, t, own[t]);
    }
  }

  lemma NoTableAt(mem: seq<Page>, pd: nat, own: Owner, i: nat)
    requires TreeOk(mem, pd, own) && i < NPT && !Present(mem[pd][i])
    ensures forall g :: TableBelow(own, g, i + 1) <==> TableBelow(own, g, i)
  {
    forall g | TableBelow(own, g, i + 1) ensures TableBelow(own, g, i) {
      assert UsedAs(mem, pd, g, own[g]);
    }
  }

  lemma AllTables(mem: seq<Page>, pd: nat, own: Owner)
    requires TreeOk(mem, pd, own) && forall g :: g in own ==> !own[g].User?
    ensures forall g :: TableBelow(own, g, NPT) <==> g in own && g != pd
  {
    forall g | g in own ensures TableBelow(own, g, NPT) <==> g != pd {
      assert UsedAs(mem, pd, g, own[g]);
      assert own[pd] == Dir;
    }
  }

  /** The walk from 0 to KERNBASE misses no mapped page, however sparse the tables. */
  lemma AllCleared(v: View, v': View, pd: nat)
    requires TreeOk(v.mem, pd, v.own) && Cleared(v, v', pd, Visited(v.mem[pd], 0, UPAGES))
    ensures forall g :: g in v'.own ==> !v'.own[g].User?
    ensures forall g :: g in v'.free || g in v'.own <==> g in v.free || g in v.own
    ensures forall g :: g in v'.own ==> g in v.own
    ensures forall g :: 0 <= g < |v.mem| && g !in v.own ==> v'.mem[g] == v.mem[g]
  {
    forall g | g in v.own && v.own[g].User? ensures MappedIn(v.own, g, Visited(v.mem[pd], 0, UPAGES)) {
      assert UsedAs(v.mem, pd, g, v.own[g]);
      VisitsAll(v.mem[pd], 0, UPAGES, v.own[g].vp);
    }
  }

  lemma BelowPageUp(a: nat, sz: nat)
    ensures a * PGSIZE < sz <==> a < PageUp(sz)
  {
  }

  lemma PageUpMono(sz: nat)
    requires sz <= UPAGES * PGSIZE
    ensures PageUp(sz) <= UPAGES
  {
  }

  lemma VisitStep(mem: seq<Page>, pd: nat, a: nat, hi: nat, seen: set<nat>, all: set<nat>)
    requires pd < |mem| && a < hi <= UPAGES && seen + Visited(mem[pd], a, hi) == all
    ensures HasTable(mem, pd, a) ==> (seen + {a}) + Visited(mem[pd], a + 1, hi) == all
    ensures !HasTable(mem, pd, a) ==> (seen + {a}) + Visited(mem[pd], a + NPT, hi) == all
  {
  }

  lemma VisitEnd(dir: Page, a: nat, hi: nat)
    requires hi <= a && hi <= UPAGES
    ensures Visited(dir, a, hi) == {}
  {
  }

  lemma DirKept(v: View, v': View, pd: nat, pages: set<nat>)
    requires Cleared(v, v', pd, pages)
    ensures pd < |v.mem| == |v'.mem| && v'.mem[pd] == v.mem[pd]
  {
  }

  /** Where the table is absent, the page visited is not mapped. */
  lemma AbsentCleared(v: View, v1: View, pd: nat, seen: set<nat>, a: nat)
    requires Cleared(v, v1, pd, seen) && TreeOk(v1.mem, pd, v1.own) && a < UPAGES && !HasTable(v1.mem, pd, a)
    ensures Cleared(v, v1, pd, seen + {a})
  {
    ClearedAbsent(v1, pd, a);
    ClearedMore(v, v1, v1, pd, seen, a);
  }

  lemma Dropped(v: View, v': View, pd: nat, t: nat, vp: nat, f: nat)
    requires TreeOk(v.mem, pd, v.own) && vp < UPAGES && HasTable(v.mem, pd, vp) && t == TableOf(v.mem, pd, vp) < |v.mem|
    requires Present(Walk(v.mem, pd, vp)) && f == FrameOf(Walk(v.mem, pd, vp)) && f < |v.mem|
    requires |v'.mem| == |v.mem| && (forall g :: 0 <= g < |v.mem| && g != f && g != t ==> v'.mem[g] == v.mem[g])
    requires f != t ==> v'.mem[t] == v.mem[t][vp % NPT := 0]
    requires v'.own == v.own - {f} && v'.free == [f] + v.free
    ensures f != t && TreeOk(v'.mem, pd, v'.own) && Cleared(v, v', pd, {vp})
  {
    assert v.own[f] == User(vp);
    assert v.own[t] == Tab(vp / NPT) by {
      assert Present(v.mem[pd][vp / NPT]);
    }
    ClearedOne(v, v.mem[t := v.mem[t][vp % NPT := 0]], v', pd, vp, f);
  }
}
