/** Physical memory as 1024-word frames, and the two-level page tables of vm.c seen as a flat map
    from virtual page numbers to words. */
module PageTables {
  import Common

  const NPT := 1024                  // entries per directory and per table
  const PGSIZE := 4096
  const UPAGES := 0x80000            // KERNBASE / PGSIZE: pages below belong to the user
  const VPAGES := 0x100000           // 4 GB / PGSIZE
  const NFRAMES := 0xE000            // PHYSTOP / PGSIZE

  const PTE_P := 1
  const PTE_W := 2
  const PTE_U := 4

  type Page = s: seq<nat> | |s| == NPT witness seq(NPT, i => 0)

  function Zeroes(): Page {
    seq(NPT, i => 0)
  }

  /** A page of physical memory after kfree's memset(v, 1, PGSIZE), linked to the next free frame. */
  function Junk(next: nat): (p: Page)
    ensures p[0] == next
  {
    seq(NPT, i => if i == 0 then next else 0x01010101)
  }

  /** The number of the first page at or above byte sz: PGROUNDUP(sz) in pages. */
  function PageUp(sz: nat): nat {
    (sz + PGSIZE - 1) / PGSIZE
  }

  // ---- Words ----

  predicate Present(w: nat) {
    w % 2 == 1
  }

  function FrameOf(w: nat): nat {
    w / PGSIZE
  }

  function FlagsOf(w: nat): nat {
    w % PGSIZE
  }

  /** pa | perm | PTE_P, for a page-aligned pa and flags below PGSIZE. */
  function Entry(frame: nat, perm: nat): (w: nat)
    requires perm < PGSIZE
    ensures Present(w) && FrameOf(w) == frame && FlagsOf(w) == (if perm % 2 == 1 then perm else perm + 1)
  {
    var flags := if perm % 2 == 1 then perm else perm + 1;
    EntryParts(frame, flags);
    frame * PGSIZE + flags
  }

  lemma EntryParts(frame: nat, flags: nat)
    requires flags < PGSIZE
    ensures (frame * PGSIZE + flags) / PGSIZE == frame && (frame * PGSIZE + flags) % PGSIZE == flags
    ensures (frame * PGSIZE + flags) % 2 == flags % 2
  {
    assert frame * PGSIZE == 2 * (frame * 2048);
  }

  // ---- The flat map ----

  /** The page table entry of page vp, or 0 when its table is absent. */
  function Walk(mem: seq<Page>, pd: nat, vp: nat): nat
    requires pd < |mem| && vp < VPAGES
  {
    var e := mem[pd][vp / NPT];
    if Present(e) && FrameOf(e) < |mem| then mem[FrameOf(e)][vp % NPT] else 0
  }

  /** What an address space uses a frame for. */
  datatype Use = Dir | Tab(i: nat) | User(vp: nat)

  type Owner = map<nat, Use>

  predicate UsedAs(mem: seq<Page>, pd: nat, f: nat, use: Use)
    requires pd < |mem|
  {
    match use
    case Dir => f == pd
    case Tab(i) => i < NPT && Present(mem[pd][i]) && FrameOf(mem[pd][i]) == f
    case User(vp) => vp < UPAGES && Present(Walk(mem, pd, vp)) && FrameOf(Walk(mem, pd, vp)) == f
  }

  /** own lists exactly the frames of the address space at pd, each with its single use: the
      directory, its tables and the frames its user pages map. */
  ghost predicate TreeOk(mem: seq<Page>, pd: nat, own: Owner) {
    && pd < |mem| && pd in own && own[pd] == Dir
    && (forall f {:trigger own[f]} :: f in own ==> 0 < f < |mem| && UsedAs(mem, pd, f, own[f]))
    && (forall i {:trigger mem[pd][i]} :: 0 <= i < NPT && Present(mem[pd][i]) ==>
          FrameOf(mem[pd][i]) in own && own[FrameOf(mem[pd][i])] == Tab(i))
    && (forall vp {:trigger Walk(mem, pd, vp)} :: 0 <= vp < UPAGES && Present(Walk(mem, pd, vp)) ==>
          FrameOf(Walk(mem, pd, vp)) in own && own[FrameOf(Walk(mem, pd, vp))] == User(vp))
  }

  /** Nothing but frames the tree uses as data has changed. */
  ghost predicate TablesSame(mem: seq<Page>, mem': seq<Page>, own: Owner) {
    && |mem'| == |mem|
    && (forall f {:trigger mem'[f]} :: f in own && 0 <= f < |mem| && !own[f].User? ==> mem'[f] == mem[f])
  }

  lemma WalkSame(mem: seq<Page>, mem': seq<Page>, pd: nat, own: Owner, vp: nat)
    requires TreeOk(mem, pd, own) && TablesSame(mem, mem', own) && vp < VPAGES
    ensures Walk(mem', pd, vp) == Walk(mem, pd, vp)
  {
    assert mem'[pd] == mem[pd];
    var e := mem[pd][vp / NPT];
    if Present(e) && FrameOf(e) < |mem| {
      assert own[FrameOf(e)] == Tab(vp / NPT);
      assert mem'[FrameOf(e)] == mem[FrameOf(e)];
    }
  }

  lemma TreeSame(mem: seq<Page>, mem': seq<Page>, pd: nat, own: Owner)
    requires TreeOk(mem, pd, own) && TablesSame(mem, mem', own)
    ensures TreeOk(mem', pd, own)
    ensures forall vp {:trigger Walk(mem', pd, vp)} :: 0 <= vp < VPAGES ==> Walk(mem', pd, vp) == Walk(mem, pd, vp)
  {
    assert mem'[pd] == mem[pd];
    forall vp | 0 <= vp < VPAGES ensures Walk(mem', pd, vp) == Walk(mem, pd, vp) {
      WalkSame(mem, mem', pd, own, vp);
    }
  }

  /** The page table that maps page vp, when there is one. */
  function TableOf(mem: seq<Page>, pd: nat, vp: nat): nat
    requires pd < |mem| && vp < VPAGES
  {
    FrameOf(mem[pd][vp / NPT])
  }

  predicate HasTable(mem: seq<Page>, pd: nat, vp: nat)
    requires pd < |mem| && vp < VPAGES
  {
    Present(mem[pd][vp / NPT])
  }

  /** Installing an empty table changes no mapping. */
  lemma TableAdded(mem: seq<Page>, mem': seq<Page>, pd: nat, own: Owner, i: nat, f: nat, perm: nat)
    requires TreeOk(mem, pd, own) && i < NPT && !Present(mem[pd][i]) && 0 < f < |mem| && f !in own && perm < PGSIZE
    requires mem' == mem[f := Zeroes()][pd := mem[pd][i := Entry(f, perm)]]
    ensures TreeOk(mem', pd, own[f := Tab(i)])
    ensures forall vp {:trigger Walk(mem', pd, vp)} :: 0 <= vp < VPAGES ==> Walk(mem', pd, vp) == Walk(mem, pd, vp)
  {
    var own' := own[f := Tab(i)];
    forall vp | 0 <= vp < VPAGES ensures Walk(mem', pd, vp) == Walk(mem, pd, vp) {
      var e := mem[pd][vp / NPT];
      if vp / NPT != i && Present(e) {
        assert own[FrameOf(e)] == Tab(vp / NPT);
        assert FrameOf(e) != pd && FrameOf(e) != f;
      }
    }
    forall g | g in own' ensures 0 < g < |mem'| && UsedAs(mem', pd, g, own'[g]) {
      if g != f {
        assert UsedAs(mem, pd, g, own[g]);
      }
    }
    forall j | 0 <= j < NPT && Present(mem'[pd][j])
      ensures FrameOf(mem'[pd][j]) in own' && own'[FrameOf(mem'[pd][j])] == Tab(j)
    {
      if j != i {
        assert Present(mem[pd][j]);
      }
    }
  }

  /** Writing one entry of one table changes the flat map at one page only. */
  lemma EntrySet(mem: seq<Page>, mem': seq<Page>, pd: nat, own: Owner, vp: nat, w: nat)
    requires TreeOk(mem, pd, own) && vp < VPAGES && HasTable(mem, pd, vp)
    requires TableOf(mem, pd, vp) < |mem|
    requires mem' == mem[TableOf(mem, pd, vp) := mem[TableOf(mem, pd, vp)][vp % NPT := w]]
    ensures mem'[pd] == mem[pd]
    ensures forall q {:trigger Walk(mem', pd, q)} :: 0 <= q < VPAGES ==>
          Walk(mem', pd, q) == if q == vp then w else Walk(mem, pd, q)
  {
    var t := TableOf(mem, pd, vp);
    assert Present(mem[pd][vp / NPT]);
    assert own[t] == Tab(vp / NPT);
    forall q | 0 <= q < VPAGES ensures Walk(mem', pd, q) == if q == vp then w else Walk(mem, pd, q) {
      var e := mem[pd][q / NPT];
      if Present(e) {
        assert own[FrameOf(e)] == Tab(q / NPT);
        if q / NPT == vp / NPT && q % NPT == vp % NPT {
          assert q == vp;
        }
      }
    }
  }

  /** A new flat map over the same tables is a tree again when its user frames have their owners. */
  lemma TreeAgain(mem: seq<Page>, mem': seq<Page>, pd: nat, own: Owner, own': Owner)
    requires TreeOk(mem, pd, own) && |mem'| == |mem| && mem'[pd] == mem[pd]
    requires forall f :: f in own' ==> 0 < f < |mem'|
    requires forall f {:trigger own'[f]} :: f in own' && !own'[f].User? ==> f in own && own[f] == own'[f]
    requires forall f {:trigger own[f]} :: f in own && !own[f].User? ==> f in own' && own'[f] == own[f]
    requires forall f {:trigger own'[f]} :: f in own' && own'[f].User? ==> UsedAs(mem', pd, f, own'[f])
    requires forall vp {:trigger Walk(mem', pd, vp)} :: 0 <= vp < UPAGES && Present(Walk(mem', pd, vp)) ==>
               FrameOf(Walk(mem', pd, vp)) in own' && own'[FrameOf(Walk(mem', pd, vp))] == User(vp)
    ensures TreeOk(mem', pd, own')
  {
    assert own[pd] == Dir && own'[pd] == Dir;
    forall i | 0 <= i < NPT && Present(mem'[pd][i])
      ensures FrameOf(mem'[pd][i]) in own' && own'[FrameOf(mem'[pd][i])] == Tab(i)
    {
      assert Present(mem[pd][i]) && own[FrameOf(mem[pd][i])] == Tab(i);
      assert own'[FrameOf(mem[pd][i])] == Tab(i);
    }
    forall f | f in own' ensures UsedAs(mem', pd, f, own'[f]) {
      if !own'[f].User? {
        assert UsedAs(mem, pd, f, own[f]);
      }
    }
  }

  /** Mapping user page vp to a frame of its own. */
  lemma UserMapped(mem: seq<Page>, mem': seq<Page>, pd: nat, own: Owner, vp: nat, f: nat, perm: nat)
    requires TreeOk(mem, pd, own) && vp < UPAGES && HasTable(mem, pd, vp) && TableOf(mem, pd, vp) < |mem|
    requires !Present(Walk(mem, pd, vp)) && f !in own && 0 < f < |mem| && perm < PGSIZE
    requires mem' == mem[TableOf(mem, pd, vp) := mem[TableOf(mem, pd, vp)][vp % NPT := Entry(f, perm)]]
    ensures TreeOk(mem', pd, own[f := User(vp)])
  {
    var own' := own[f := User(vp)];
    EntrySet(mem, mem', pd, own, vp, Entry(f, perm));
    forall g | g in own' && own'[g].User? ensures UsedAs(mem', pd, g, own'[g]) {
      if g != f {
        assert UsedAs(mem, pd, g, own[g]);
      }
      assert Walk(mem', pd, own'[g].vp) == if own'[g].vp == vp then Entry(f, perm) else Walk(mem, pd, own'[g].vp);
    }
    forall q | 0 <= q < UPAGES && Present(Walk(mem', pd, q))
      ensures FrameOf(Walk(mem', pd, q)) in own' && own'[FrameOf(Walk(mem', pd, q))] == User(q)
    {
      if q != vp {
        assert Present(Walk(mem, pd, q));
      }
    }
    TreeAgain(mem, mem', pd, own, own');
  }

  /** Clearing the entry of user page vp. */
  lemma UserCleared(mem: seq<Page>, mem': seq<Page>, pd: nat, own: Owner, vp: nat)
    requires TreeOk(mem, pd, own) && vp < UPAGES && HasTable(mem, pd, vp) && TableOf(mem, pd, vp) < |mem|
    requires Present(Walk(mem, pd, vp))
    requires mem' == mem[TableOf(mem, pd, vp) := mem[TableOf(mem, pd, vp)][vp % NPT := 0]]
    ensures FrameOf(Walk(mem, pd, vp)) in own && own[FrameOf(Walk(mem, pd, vp))] == User(vp)
    ensures TreeOk(mem', pd, own - {FrameOf(Walk(mem, pd, vp))})
  {
    var f := FrameOf(Walk(mem, pd, vp));
    var own' := own - {f};
    EntrySet(mem, mem', pd, own, vp, 0);
    forall g | g in own' && own'[g].User? ensures UsedAs(mem', pd, g, own'[g]) {
      assert UsedAs(mem, pd, g, own[g]);
      assert Walk(mem', pd, own[g].vp) == if own[g].vp == vp then 0 else Walk(mem, pd, own[g].vp);
    }
    forall q | 0 <= q < UPAGES && Present(Walk(mem', pd, q))
      ensures FrameOf(Walk(mem', pd, q)) in own' && own'[FrameOf(Walk(mem', pd, q))] == User(q)
    {
      assert q != vp && Present(Walk(mem, pd, q));
    }
    TreeAgain(mem, mem', pd, own, own');
  }

  /** Mapping a kernel page: no frame changes hands. */
  lemma KernelMapped(mem: seq<Page>, mem': seq<Page>, pd: nat, own: Owner, vp: nat, w: nat)
    requires TreeOk(mem, pd, own) && UPAGES <= vp < VPAGES && HasTable(mem, pd, vp) && TableOf(mem, pd, vp) < |mem|
    requires mem' == mem[TableOf(mem, pd, vp) := mem[TableOf(mem, pd, vp)][vp % NPT := w]]
    ensures TreeOk(mem', pd, own)
  {
    EntrySet(mem, mem', pd, own, vp, w);
    forall g | g in own && own[g].User? ensures UsedAs(mem', pd, g, own[g]) {
      assert UsedAs(mem, pd, g, own[g]);
      assert Walk(mem', pd, own[g].vp) == Walk(mem, pd, own[g].vp);
    }
    forall q | 0 <= q < UPAGES && Present(Walk(mem', pd, q))
      ensures FrameOf(Walk(mem', pd, q)) in own && own[FrameOf(Walk(mem', pd, q))] == User(q)
    {
      assert Present(Walk(mem, pd, q));
    }
    TreeAgain(mem, mem', pd, own, own);
  }

  // ---- The tables a range of pages needs ----

  /** One past the last table that maps a page from lo to hi. */
  function TableEnd(lo: nat, hi: nat): nat {
    if hi <= lo then lo / NPT else (hi - 1) / NPT + 1
  }

  /** The tables that mapping the pages from lo to hi has to add to the directory. */
  function Absent(dir: Page, lo: nat, hi: nat): set<nat> {
    set i | lo / NPT <= i < TableEnd(lo, hi) && i < NPT && !Present(dir[i])
  }

  /** The frames that mapping the pages from lo to hi takes, one for each page and each new table. */
  function Need(dir: Page, lo: nat, hi: nat): int {
    hi - lo + |Absent(dir, lo, hi)|
  }

  /** What the table of one page costs. */
  function Cost(dir: Page, vp: nat): nat
    requires vp < VPAGES
  {
    if Present(dir[vp / NPT]) then 0 else 1
  }

  /** Mapping page a, after the pages from lo on, makes a new table. */
  predicate NewTab(dir: Page, lo: nat, a: nat)
    requires a < VPAGES
  {
    !Present(dir[a / NPT]) && a / NPT !in Absent(dir, lo, a)
  }

  /** dir' has the tables of dir and that of page vp. */
  ghost predicate WithTable(dir: Page, dir': Page, vp: nat) {
    forall i {:trigger dir'[i]} :: 0 <= i < NPT ==> (Present(dir'[i]) <==> Present(dir[i]) || i == vp / NPT)
  }

  /** dir' has the tables of dir and those of the pages from lo to a. */
  ghost predicate DirAfter(dir: Page, dir': Page, lo: nat, a: nat) {
    forall i {:trigger dir'[i]} :: 0 <= i < NPT ==> (Present(dir'[i]) <==> Present(dir[i]) || i in Absent(dir, lo, a))
  }

  lemma AbsentStep(dir: Page, lo: nat, a: nat, next: nat)
    requires lo <= a < VPAGES && next == a + 1
    ensures Absent(dir, lo, next) == if NewTab(dir, lo, a) then Absent(dir, lo, a) + {a / NPT} else Absent(dir, lo, a)
  {
    assert TableEnd(lo, next) == a / NPT + 1 && a / NPT < NPT;
    assert TableEnd(lo, a) == a / NPT || TableEnd(lo, a) == a / NPT + 1;
  }

  lemma DirStart(dir: Page, lo: nat)
    ensures DirAfter(dir, dir, lo, lo) && Absent(dir, lo, lo) == {}
  {
  }

  lemma DirStep(dir: Page, dir1: Page, dir2: Page, lo: nat, a: nat, next: nat)
    requires lo <= a < VPAGES && next == a + 1 && DirAfter(dir, dir1, lo, a) && WithTable(dir1, dir2, a)
    ensures DirAfter(dir, dir2, lo, next)
    ensures |Absent(dir, lo, next)| == |Absent(dir, lo, a)| + Cost(dir1, a)
  {
    AbsentStep(dir, lo, a, next);
    TableNew(dir, dir1, lo, a);
    forall i | 0 <= i < NPT ensures Present(dir2[i]) <==> Present(dir[i]) || i in Absent(dir, lo, next) {
      assert Present(dir1[i]) <==> Present(dir[i]) || i in Absent(dir, lo, a);
    }
  }

  /** The table of page a is missing exactly when mapping a makes a new one. */
  lemma TableNew(dir: Page, dir1: Page, lo: nat, a: nat)
    requires a < VPAGES && DirAfter(dir, dir1, lo, a)
    ensures Cost(dir1, a) == if NewTab(dir, lo, a) then 1 else 0
  {
    assert Present(dir1[a / NPT]) <==> Present(dir[a / NPT]) || a / NPT in Absent(dir, lo, a);
  }

  /** A single page takes a new table exactly when it has none. */
  lemma OnePage(dir: Page, vp: nat, next: nat)
    requires vp < VPAGES && next == vp + 1
    ensures NewTab(dir, vp, vp) <==> !Present(dir[vp / NPT])
    ensures |Absent(dir, vp, next)| == Cost(dir, vp)
    ensures forall dir': Page :: DirAfter(dir, dir', vp, next) ==> WithTable(dir, dir', vp)
  {
    AbsentStep(dir, vp, vp, next);
    DirStart(dir, vp);
  }

  /** Mapping further pages takes no fewer tables, and one more if page a needs a new one. */
  lemma AbsentMore(dir: Page, lo: nat, a: nat, hi: nat)
    requires lo <= a <= hi <= VPAGES
    ensures |Absent(dir, lo, a)| <= |Absent(dir, lo, hi)|
    ensures a < hi && NewTab(dir, lo, a) ==> |Absent(dir, lo, a)| < |Absent(dir, lo, hi)|
  {
    assert TableEnd(lo, a) <= TableEnd(lo, hi);
    Common.SubsetSize(Absent(dir, lo, a), Absent(dir, lo, hi));
    if a < hi && NewTab(dir, lo, a) {
      Common.SubsetSize(Absent(dir, lo, a) + {a / NPT}, Absent(dir, lo, hi));
    }
  }

  /** Each further page takes at least one more frame. */
  lemma NeedMore(dir: Page, lo: nat, a: nat, hi: nat)
    requires lo <= a <= hi <= VPAGES
    ensures Need(dir, lo, a) + (hi - a) <= Need(dir, lo, hi)
    ensures a < hi && NewTab(dir, lo, a) ==> Need(dir, lo, a) + (hi - a) < Need(dir, lo, hi)
  {
    AbsentMore(dir, lo, a, hi);
  }

  // ---- The pages deallocuvm looks at ----

  /** The pages the loop of deallocuvm visits from a on: every page of a table that exists, and one
      page in each 4 MB step where the table is absent. */
  function Visited(dir: Page, a: nat, hi: nat): set<nat>
    requires hi <= UPAGES
    decreases hi - a
  {
    if a >= hi then {}
    else {a} + Visited(dir, if Present(dir[a / NPT]) then a + 1 else a + NPT, hi)
  }

  lemma {:induction false} VisitedRange(dir: Page, a: nat, hi: nat, vp: nat)
    requires hi <= UPAGES && vp in Visited(dir, a, hi)
    ensures a <= vp < hi
    decreases hi - a
  {
    if vp != a {
      VisitedRange(dir, if Present(dir[a / NPT]) then a + 1 else a + NPT, hi, vp);
    }
  }

  /** From an existing table, or from a 4 MB boundary, no page of an existing table is missed. */
  lemma {:induction false} VisitsAll(dir: Page, a: nat, hi: nat, vp: nat)
    requires hi <= UPAGES && a <= vp < hi && Present(dir[vp / NPT])
    requires a % NPT == 0 || Present(dir[a / NPT])
    ensures vp in Visited(dir, a, hi)
    decreases hi - a
  {
    if vp != a {
      if Present(dir[a / NPT]) {
        VisitsAll(dir, a + 1, hi, vp);
      } else {
        VisitsAll(dir, a + NPT, hi, vp);
      }
    }
  }

  /** The first existing table at or after table i, or NPT. */
  function NextTable(dir: Page, i: nat): (r: nat)
    requires i <= NPT
    ensures i <= r <= NPT
    ensures forall j :: i <= j < r ==> !Present(dir[j])
    ensures r < NPT ==> Present(dir[r])
    decreases NPT - i
  {
    if i == NPT || Present(dir[i]) then i else NextTable(dir, i + 1)
  }

  /** The pages of existing tables that a start at a jumps over: those of the first existing table
      that lie below a's own offset in its table, when a's own table is absent. */
  predicate Missed(dir: Page, a: nat, vp: nat)
    requires a < UPAGES && vp < UPAGES
  {
    !Present(dir[a / NPT]) && vp / NPT == NextTable(dir, a / NPT) && vp % NPT < a % NPT
  }

  /** Exactly the missed pages of existing tables are not visited. */
  lemma {:induction false} VisitedExactly(dir: Page, a: nat, hi: nat, vp: nat)
    requires hi <= UPAGES && a <= vp < hi && Present(dir[vp / NPT])
    ensures vp in Visited(dir, a, hi) <==> !Missed(dir, a, vp)
    decreases hi - a
  {
    if Present(dir[a / NPT]) {
      VisitsAll(dir, a, hi, vp);
    } else {
      var n := a + NPT;
      assert n / NPT == a / NPT + 1 && n % NPT == a % NPT;
      assert vp / NPT > a / NPT;
      if vp < n {
        if vp in Visited(dir, n, hi) {
          VisitedRange(dir, n, hi, vp);
        }
        assert vp / NPT == n / NPT;
      } else {
        VisitedExactly(dir, n, hi, vp);
      }
    }
  }
}
