/** sbrk and the page-fault handler on real page tables: what growproc (proc.c) and trap (trap.c) do
    to an address space is what the allocator model says, unless memory runs out. */
module UserMemory {
  import opened PageTables
  import Vm
  import LazyAlloc

  /** The contents of the present user pages of an address space. */
  ghost function Pages(mem: seq<Page>, pd: nat): map<nat, Page>
    requires pd < |mem|
  {
    map vp: nat | vp < UPAGES && Present(Walk(mem, pd, vp)) && FrameOf(Walk(mem, pd, vp)) < |mem| ::
        mem[FrameOf(Walk(mem, pd, vp))]
  }

  /** No page at or above lo is present. */
  ghost predicate NoneAbove(mem: seq<Page>, pd: nat, lo: nat) {
    pd < |mem| && forall vp: nat :: vp in Pages(mem, pd) ==> vp < lo
  }

  /** Page vp is present, writable and accessible to the user. */
  ghost predicate UserPage(mem: seq<Page>, pd: nat, vp: nat) {
    pd < |mem| && vp < VPAGES && FlagsOf(Walk(mem, pd, vp)) == PTE_P + PTE_W + PTE_U
  }

  /** One page filled leaves every other entry alone. */
  lemma OneEntry(v: Vm.View, v': Vm.View, pd: nat, vp: nat, next: nat)
    requires Vm.NewPages(v, v', pd, vp, next) && next == vp + 1
    ensures Vm.SameOutside(v.mem, v'.mem, pd, vp, next) && UserPage(v'.mem, pd, vp)
  {
    assert Walk(v'.mem, pd, vp) == Walk(v'.mem, pd, vp);
  }

  /** New zeroed pages. */
  lemma PagesFilled(v: Vm.View, v': Vm.View, pd: nat, lo: nat, hi: nat)
    requires TreeOk(v.mem, pd, v.own) && Vm.Apart(v.own, v.free) && Vm.NewPages(v, v', pd, lo, hi)
    ensures Pages(v'.mem, pd) == Pages(v.mem, pd) + LazyAlloc.ZeroPages(lo, hi)
  {
    var a, b := Pages(v'.mem, pd), Pages(v.mem, pd) + LazyAlloc.ZeroPages(lo, hi);
    hide Vm.NewPages, TreeOk, Vm.Apart, LazyAlloc.ZeroPages;
    forall vp: nat | vp < UPAGES
      ensures (vp in a <==> vp in b) && (vp in a ==> a[vp] == b[vp])
    {
      PageFilled(v, v', pd, lo, hi, vp);
    }
  }

  lemma PageFilled(v: Vm.View, v': Vm.View, pd: nat, lo: nat, hi: nat, vp: nat)
    requires TreeOk(v.mem, pd, v.own) && Vm.Apart(v.own, v.free) && Vm.NewPages(v, v', pd, lo, hi) && vp < UPAGES
    ensures pd < |v.mem| && pd < |v'.mem| && hi <= UPAGES
    ensures lo <= vp < hi ==> vp in Pages(v'.mem, pd) && Pages(v'.mem, pd)[vp] == Zeroes()
    ensures !(lo <= vp < hi) ==> (vp in Pages(v'.mem, pd) <==> vp in Pages(v.mem, pd))
    ensures !(lo <= vp < hi) && vp in Pages(v.mem, pd) ==> Pages(v'.mem, pd)[vp] == Pages(v.mem, pd)[vp]
  {
    if lo <= vp < hi {
      assert Vm.NewPage(v, v', pd, vp) by {
        assert Walk(v'.mem, pd, vp) == Walk(v'.mem, pd, vp);
      }
    } else {
      assert Walk(v'.mem, pd, vp) == Walk(v.mem, pd, vp);
      if Present(Walk(v.mem, pd, vp)) {
        var f := FrameOf(Walk(v.mem, pd, vp));
        assert v.own[f] == User(vp) && f !in v.free && Vm.Kept(v, v');
        assert v'.mem[f] == v.mem[f];
      }
    }
  }

  /** A failed growth. */
  lemma PagesUndone(v: Vm.View, v': Vm.View, pd: nat)
    requires TreeOk(v.mem, pd, v.own) && Vm.Undone(v, v', pd)
    ensures Pages(v'.mem, pd) == Pages(v.mem, pd)
  {
    var a, b := Pages(v'.mem, pd), Pages(v.mem, pd);
    forall vp: nat | vp < UPAGES ensures (vp in a <==> vp in b) && (vp in a ==> a[vp] == b[vp]) {
      assert Present(Walk(v'.mem, pd, vp)) <==> Present(Walk(v.mem, pd, vp));
      if Present(Walk(v.mem, pd, vp)) {
        assert v.own[FrameOf(Walk(v.mem, pd, vp))] == User(vp);
      }
    }
  }

  /** Pages taken away. */
  lemma PagesCleared(v: Vm.View, v': Vm.View, pd: nat, gone: set<nat>)
    requires TreeOk(v.mem, pd, v.own) && Vm.Cleared(v, v', pd, gone)
    ensures Pages(v'.mem, pd) == LazyAlloc.Without(Pages(v.mem, pd), gone)
  {
    var a, b := Pages(v'.mem, pd), LazyAlloc.Without(Pages(v.mem, pd), gone);
    forall vp: nat | vp < UPAGES
      ensures (vp in a <==> vp in b) && (vp in a ==> a[vp] == b[vp])
    {
      assert Walk(v'.mem, pd, vp) == if vp in gone && Present(Walk(v.mem, pd, vp)) then 0 else Walk(v.mem, pd, vp);
      if Present(Walk(v.mem, pd, vp)) {
        var f := FrameOf(Walk(v.mem, pd, vp));
        assert v.own[f] == User(vp);
        if vp !in gone {
          assert f in v'.own;
          assert v'.mem[f] == v.mem[f];
        }
      }
    }
  }

  /** Every page table satisfies what the page-level model asks of it: a present page has a table. */
  lemma PagesTabled(mem: seq<Page>, pd: nat, sz: nat, killed: bool)
    requires pd < |mem|
    ensures LazyAlloc.Tabled(LazyAlloc.Proc(sz, Pages(mem, pd), mem[pd], killed))
  {
    forall vp | vp in Pages(mem, pd) ensures vp < UPAGES && Present(mem[pd][vp / NPT]) {
      Vm.PresentHasTable(mem, pd, vp);
    }
  }

  class Process {
    const m: Vm.Memory
    const pd: nat
    var sz: nat
    var lazily: bool                 // page_allocator_type == 1
    var killed: bool
    ghost var own: Owner

    ghost predicate Valid()
      reads this, m
    {
      m.Space(pd, own) && sz < LazyAlloc.KERNBASE
    }

    /** The process as the allocator model sees it. */
    ghost function Abs(): LazyAlloc.Proc
      reads this, m
      requires Valid()
    {
      LazyAlloc.Proc(sz, Pages(m.mem, pd), m.mem[pd], killed)
    }

    constructor (m: Vm.Memory, pd: nat, sz: nat, lazily: bool, ghost own: Owner)
      requires m.Space(pd, own) && sz < LazyAlloc.KERNBASE
      ensures Valid() && this.m == m && this.pd == pd && this.sz == sz && this.lazily == lazily && !killed
    {
      this.m := m;
      this.pd := pd;
      this.sz := sz;
      this.lazily := lazily;
      this.killed := false;
      this.own := own;
    }

    /** The free frames cover a growth to size bytes: the new pages and the tables they lack. */
    ghost predicate Fits(size: nat)
      reads this, m
    {
      pd < |m.mem| && |m.free| >= Need(m.mem[pd], PageUp(sz), PageUp(size))
    }

    /** The last new page of a growth to size bytes gets a frame but no table. */
    ghost predicate LastStrands(size: nat)
      reads this, m
    {
      pd < |m.mem| && PageUp(size) > 0 && Vm.StrandsAt(m.mem[pd], PageUp(sz), PageUp(size) - 1, |m.free|)
    }

    /** growproc's way up under the default allocator.  When frames do not suffice it fails and leaves
        every page as it was, or, if only the last page's table is missing, succeeds without that
        page. */
    method GrowEager(size: nat) returns (s: nat)
      requires Valid() && sz <= size && NoneAbove(m.mem, pd, PageUp(sz))
      modifies this`own, m
      ensures Valid()
      ensures size >= LazyAlloc.KERNBASE ==> s == 0 && Abs() == old(Abs())
      ensures size < LazyAlloc.KERNBASE ==>
                var p, lo, hi := old(Abs()), PageUp(sz), PageUp(size);
                var top := if old(Fits(size)) then hi else if old(LastStrands(size)) then hi - 1 else lo;
                && s == (if old(Fits(size)) || old(LastStrands(size)) then size else 0)
                && Abs() == p.(pages := p.pages + LazyAlloc.ZeroPages(lo, top), dir := m.mem[pd])
    {
      hide TreeOk, Walk, Pages, PageUp, Need, NoneAbove, LazyAlloc.ZeroPages;
      hide Vm.Threaded, Vm.Apart, Vm.StrandsAt, Vm.Extended, Vm.SameFrames, Vm.RangeFree;
      ghost var v := Vm.View(m.mem, own, m.free);
      ghost var lost;
      RangeUnmapped(m.mem, pd, own, PageUp(sz), PageUp(size));
      s, own, lost := m.AllocUvm(pd, sz, size, own);
      if size < LazyAlloc.KERNBASE {
        GrownPages(v, Vm.View(m.mem, own, m.free), pd, PageUp(sz), PageUp(size), size, s, lost);
      }
    }

    /** sbrk: growproc, returning the old size.  The process becomes what the allocator model says,
        exactly unless frames run out on the way up; then the call fails and changes no page, or, if
        only the last page's table is missing, succeeds without that page. */
    method Sbrk(n: int) returns (r: int, ghost fits: bool)
      requires Valid() && -0x8000_0000 <= n < 0x8000_0000
      requires n > 0 && !lazily ==> NoneAbove(m.mem, pd, PageUp(sz))
      modifies this`sz, this`own, m
      ensures Valid()
      ensures !fits <==> n > 0 && !lazily && old(sz) + n < LazyAlloc.KERNBASE && !old(Fits(sz + n))
      ensures fits && n >= 0 ==>
                if old(sz) + n < LazyAlloc.KERNBASE then r == old(sz) && sz == old(sz) + n else r == -1 && sz == old(sz)
      ensures n < 0 ==>
                if old(sz) == 0 || old(sz) + n == 0 then r == -1 && sz == old(sz)
                else r == old(sz) && sz == if old(sz) + n < 0 then old(sz) else old(sz) + n
      ensures fits ==> r == LazyAlloc.Grow(old(Abs()), n, lazily).r
      ensures fits ==> Abs() == LazyAlloc.Grow(old(Abs()), n, lazily).p.(dir := m.mem[pd])
      ensures !fits && !old(LastStrands(sz + n)) ==> r == -1 && Abs() == old(Abs()).(dir := m.mem[pd])
      ensures !fits && old(LastStrands(sz + n)) ==>
                var p, lo, hi := old(Abs()), PageUp(old(sz)), PageUp(old(sz) + n);
                r == p.sz && Abs() == p.(sz := p.sz + n, pages := p.pages + LazyAlloc.ZeroPages(lo, hi - 1),
                    dir := m.mem[pd])
    {
      hide TreeOk, Walk, Pages, Visited, PageUp, NoneAbove, Vm.Threaded, Vm.Apart, LazyAlloc.Without,
          LazyAlloc.ZeroPages;
      hide Need, Vm.StrandsAt;
      fits := !(n > 0 && !lazily && sz + n < LazyAlloc.KERNBASE && !Fits(sz + n));
      var addr, s := sz, sz;
      if n > 0 {
        if lazily {
          s := sz + n;
          if s >= LazyAlloc.KERNBASE {
            return -1, fits;
          }
        } else {
          ghost var p, lo := Abs(), PageUp(sz);
          NoPages(p.pages, lo);
          s := GrowEager(sz + n);
          if s == 0 {
            return -1, fits;
          }
        }
      } else if n < 0 {
        s := ShrinkTo(LazyAlloc.Resized(sz, n));
        if s == 0 {
          return -1, fits;
        }
      }
      sz := s;
      return addr, fits;
    }

    /** growproc's way down. */
    method ShrinkTo(size: nat) returns (s: nat)
      requires Valid()
      modifies this`own, m
      ensures Valid()
      ensures s == if size >= sz then sz else size
      ensures Abs() == if size >= sz then old(Abs()) else
                old(Abs()).(pages := LazyAlloc.Without(old(Abs()).pages,
                    Visited(old(m.mem)[pd], PageUp(size), PageUp(sz))), dir := m.mem[pd])
    {
      ghost var v := Vm.View(m.mem, own, m.free);
      s, own := m.DeallocUvm(pd, sz, size, own);
      if size < sz {
        assert PageUp(sz) <= UPAGES;
        PagesCleared(v, Vm.View(m.mem, own, m.free), pd, Visited(v.mem[pd], PageUp(size), PageUp(sz)));
      }
    }

    /** The page-fault branch of trap, for a fault in page vp, which is not present.  It does what the
        allocator model says exactly unless a frame for the page or for its table is missing; then the
        process is killed, and its pages and the free frames are as they were. */
    method PageFault(va: nat) returns (ghost fits: bool)
      requires Valid() && va < VPAGES * PGSIZE && (va / PGSIZE) !in Abs().pages
      modifies this`killed, this`own, m
      ensures Valid()
      ensures !fits <==> lazily && va / PGSIZE * PGSIZE < sz && |old(m.free)| < 1 + Cost(old(m.mem)[pd], va / PGSIZE)
      ensures fits ==> Abs() == LazyAlloc.Fault(old(Abs()), va / PGSIZE, lazily).(dir := m.mem[pd])
      ensures !fits ==> Abs() == old(Abs()).(killed := true) && m.free == old(m.free) && own == old(own)
      ensures Vm.SameOutside(old(m.mem), m.mem, pd, va / PGSIZE, va / PGSIZE + 1)
      ensures fits && lazily && va / PGSIZE * PGSIZE < sz ==> UserPage(m.mem, pd, va / PGSIZE)
    {
      fits := true;
      var vp := va / PGSIZE;
      if !lazily || vp * PGSIZE >= sz {
        killed := true;
        return;
      }
      var ok := AllocFault(vp);
      if !ok {
        killed := true;
      }
      fits := ok;
    }

    /** The lazy allocator's answer to a fault below sz. */
    method AllocFault(vp: nat) returns (ok: bool)
      requires Valid() && vp < UPAGES && vp !in Pages(m.mem, pd)
      modifies this`own, m
      ensures Valid()
      ensures ok <==> |old(m.free)| >= 1 + Cost(old(m.mem)[pd], vp)
      ensures Pages(m.mem, pd) == if ok then old(Pages(m.mem, pd))[vp := Zeroes()] else old(Pages(m.mem, pd))
      ensures !ok ==> m.free == old(m.free) && own == old(own) && m.mem[pd] == old(m.mem)[pd]
      ensures Vm.SameOutside(old(m.mem), m.mem, pd, vp, vp + 1) && (ok ==> UserPage(m.mem, pd, vp))
    {
      hide TreeOk, Walk, Present, Pages, LazyAlloc.ZeroPages, WithTable, Vm.Threaded, Vm.Apart, Vm.Mapping;
      hide Zeroes, Junk, Vm.NewPages, Vm.Grown;
      ghost var v := Vm.View(m.mem, own, m.free);
      NotPresent(m.mem, pd, own, vp);
      Vm.PdInMem(m.mem, pd, own);
      var f := m.TakeZeroed(pd, own);
      if f == 0 {
        return false;
      }
      ghost var v1 := Vm.View(m.mem, own, m.free);
      Vm.ZeroedFrame(v, m.mem, pd, f);
      assert Walk(m.mem, pd, vp) == Walk(v.mem, pd, vp) && m.mem[pd] == v.mem[pd];
      var r;
      r, own := m.MapUser(pd, vp, f, PTE_W + PTE_U, own);
      ghost var v2 := Vm.View(m.mem, own, m.free);
      if r == Vm.Mapped {
        Vm.FilledOne(v, v1, v2, pd, vp, f);
        PagesFilled(v, v2, pd, vp, vp + 1);
        OneEntry(v, v2, pd, vp, vp + 1);
        OneZeroPage(Pages(v.mem, pd), vp);
        return true;
      }
      m.Kfree(f);
      assert m.free == v.free;
      PagesJunk(v.mem, m.mem, pd, own, f, vp);
      return false;
    }
  }

  /** What allocuvm leaves, in terms of pages. */
  lemma GrownPages(v: Vm.View, v': Vm.View, pd: nat, lo: nat, hi: nat, size: nat, s: nat, lost: set<nat>)
    requires TreeOk(v.mem, pd, v.own) && Vm.Apart(v.own, v.free) && pd < |v'.mem|
    requires Vm.Extended(v, v', pd, lo, hi, size, s, lost)
    ensures var fits, strands := |v.free| >= Need(v.mem[pd], lo, hi), hi > 0 &&
          Vm.StrandsAt(v.mem[pd], lo, hi - 1, |v.free|);
            var top := if fits then hi else if strands then hi - 1 else lo;
            && s == (if fits || strands then size else 0)
            && Pages(v'.mem, pd) == Pages(v.mem, pd) + LazyAlloc.ZeroPages(lo, top)
  {
    hide TreeOk, Walk, Pages, Need, Vm.StrandsAt, Vm.Undone, Vm.NewPages, Vm.Grown, Vm.Apart, Vm.Strands;
    if |v.free| >= Need(v.mem[pd], lo, hi) {
      PagesFilled(v, v', pd, lo, hi);
    } else if Vm.StrandsAt(v.mem[pd], lo, hi - 1, |v.free|) {
      PagesFilled(v, v', pd, lo, hi - 1);
    } else {
      PagesUndone(v, v', pd);
      NoPages(Pages(v.mem, pd), lo);
    }
  }

  lemma NoPages(pages: map<nat, Page>, lo: nat)
    ensures pages + LazyAlloc.ZeroPages(lo, lo) == pages
  {
  }

  lemma InPages(mem: seq<Page>, pd: nat, own: Owner, q: nat)
    requires TreeOk(mem, pd, own) && q < UPAGES && Present(Walk(mem, pd, q))
    ensures q in Pages(mem, pd) && Pages(mem, pd)[q] == mem[FrameOf(Walk(mem, pd, q))]
  {
    assert own[FrameOf(Walk(mem, pd, q))] == User(q);
  }

  lemma NotPresent(mem: seq<Page>, pd: nat, own: Owner, q: nat)
    requires TreeOk(mem, pd, own) && q < UPAGES && q !in Pages(mem, pd)
    ensures !Present(Walk(mem, pd, q))
  {
    if Present(Walk(mem, pd, q)) {
      InPages(mem, pd, own, q);
    }
  }

  lemma OneZeroPage(pages: map<nat, Page>, vp: nat)
    ensures pages + LazyAlloc.ZeroPages(vp, vp + 1) == pages[vp := Zeroes()]
  {
  }

  /** Overwriting a frame that is not part of the address space leaves its pages alone. */
  lemma PagesJunk(mem: seq<Page>, mem': seq<Page>, pd: nat, own: Owner, f: nat, vp: nat)
    requires TreeOk(mem, pd, own) && f < |mem| == |mem'| && f !in own && mem' == mem[f := mem'[f]]
    ensures TreeOk(mem', pd, own) && Pages(mem', pd) == Pages(mem, pd)
    ensures Vm.SameOutside(mem, mem', pd, vp, vp + 1)
  {
    TreeSame(mem, mem', pd, own);
    var a, b := Pages(mem', pd), Pages(mem, pd);
    forall q: nat | q < UPAGES ensures (q in a <==> q in b) && (q in a ==> a[q] == b[q]) {
      assert Walk(mem', pd, q) == Walk(mem, pd, q);
      if Present(Walk(mem, pd, q)) {
        assert own[FrameOf(Walk(mem, pd, q))] == User(q);
      }
    }
  }

  lemma RangeUnmapped(mem: seq<Page>, pd: nat, own: Owner, lo: nat, hi: nat)
    requires TreeOk(mem, pd, own) && NoneAbove(mem, pd, lo)
    ensures Vm.RangeFree(mem, pd, lo, hi)
  {
    forall q | lo <= q < hi && q < UPAGES ensures !Present(Walk(mem, pd, q)) {
      if Present(Walk(mem, pd, q)) {
        InPages(mem, pd, own, q);
      }
    }
  }
}
