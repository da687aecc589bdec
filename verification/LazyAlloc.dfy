/** The lazy page allocator (the page-fault branch of trap.c, growproc in proc.c) against the default
    allocator, as a user process sees them: sizes, bytes and the accesses that kill it.
    Frames are taken to be plentiful, and every present user page accessible. */
module LazyAlloc {
  import opened PageTables

  const KERNBASE := UPAGES * PGSIZE
  const WRAP := VPAGES * PGSIZE        // 2^32

  /** A process's memory: its size, the contents of its present pages, and its page directory, of
      which only the presence of tables matters here. */
  datatype Proc = Proc(sz: nat, pages: map<nat, Page>, dir: Page, killed: bool)

  /** The process after a system call, and what the call returned. */
  datatype Outcome = Outcome(p: Proc, r: int)

  /** User operations; words are addressed by page and index. */
  datatype Op = Sbrk(n: int) | Load(vp: nat, i: nat) | Store(vp: nat, i: nat, w: nat)

  datatype Out = Ret(r: int) | Word(w: nat) | Done | Dead

  // ---- growproc ----

  function ZeroPages(lo: nat, hi: nat): (m: map<nat, Page>)
    ensures forall vp: nat :: vp in m <==> lo <= vp < hi
    ensures forall vp :: vp in m ==> m[vp] == Zeroes()
  {
    if lo >= hi then map[] else ZeroPages(lo, hi - 1)[hi - 1 := Zeroes()]
  }

  function Without(pages: map<nat, Page>, gone: set<nat>): map<nat, Page> {
    map vp | vp in pages && vp !in gone :: pages[vp]
  }

  /** The size after adding n, as a uint. */
  function Resized(sz: nat, n: int): nat
    requires -0x8000_0000 <= n < 0x8000_0000 && sz < KERNBASE
  {
    if sz + n < 0 then sz + n + WRAP else sz + n
  }

  /** sys_sbrk and growproc. */
  function Grow(p: Proc, n: int, lazily: bool): Outcome
    requires -0x8000_0000 <= n < 0x8000_0000 && p.sz < KERNBASE
  {
    var size := Resized(p.sz, n);
    if n > 0 then
      if size >= KERNBASE then Outcome(p, -1)
      else if lazily then Outcome(p.(sz := size), p.sz)
      else Outcome(p.(sz := size, pages := p.pages + ZeroPages(PageUp(p.sz), PageUp(size))), p.sz)
    else if n < 0 then
      if size >= p.sz then
        if p.sz == 0 then Outcome(p, -1) else Outcome(p, p.sz)
      else
        var q := p.(pages := Without(p.pages, Visited(p.dir, PageUp(size), PageUp(p.sz))));
        if size == 0 then Outcome(q, -1) else Outcome(q.(sz := size), p.sz)
    else Outcome(p, p.sz)
  }

  // ---- Page faults ----

  /** The page-fault branch of trap: allocate the page, or kill the process. */
  function Fault(p: Proc, vp: nat, lazily: bool): Proc
    requires vp < VPAGES
  {
    if lazily && vp * PGSIZE < p.sz then p.(pages := p.pages[vp := Zeroes()])
    else p.(killed := true)
  }

  /** An access to page vp, with the fault it may cause. */
  function Touch(p: Proc, vp: nat, lazily: bool): Proc
    requires vp < VPAGES
  {
    if vp in p.pages then p else Fault(p, vp, lazily)
  }

  predicate OpOk(op: Op) {
    match op
    case Sbrk(n) => -0x8000_0000 <= n < 0x8000_0000
    case Load(vp, i) => vp < VPAGES && i < NPT
    case Store(vp, i, w) => vp < VPAGES && i < NPT
  }

  function Step(p: Proc, op: Op, lazily: bool): (Proc, Out)
    requires OpOk(op) && p.sz < KERNBASE
  {
    if p.killed then (p, Dead)
    else
      match op
      case Sbrk(n) => var o := Grow(p, n, lazily); (o.p, Ret(o.r))
      case Load(vp, i) =>
        var q := Touch(p, vp, lazily);
        if vp in q.pages then (q, Word(q.pages[vp][i])) else (q, Dead)
      case Store(vp, i, w) =>
        var q := Touch(p, vp, lazily);
        if vp in q.pages then (q.(pages := q.pages[vp := q.pages[vp][i := w]]), Done) else (q, Dead)
  }

  // ---- Lazy against eager ----

  /** Every present page has its table. */
  ghost predicate Tabled(p: Proc) {
    forall vp :: vp in p.pages ==> vp < UPAGES && Present(p.dir[vp / NPT])
  }

  /** The eager process has every page below its size; the lazy one has some of them, and those it
      does not have yet are zero in the eager one. */
  ghost predicate Match(l: Proc, e: Proc) {
    && l.sz == e.sz < KERNBASE && l.killed == e.killed
    && (forall vp :: vp in e.pages <==> 0 <= vp < PageUp(e.sz))
    && (forall vp :: vp in l.pages ==> vp in e.pages && e.pages[vp] == l.pages[vp])
    && (forall vp :: vp in e.pages && vp !in l.pages ==> e.pages[vp] == Zeroes())
  }

  /** The shrinks on which the lazy allocator behaves: not to exactly zero, and with no present page
      in the stretch that deallocuvm jumps over. */
  ghost predicate Shrinks(p: Proc, n: int)
    requires -0x8000_0000 <= n < 0x8000_0000 && p.sz < KERNBASE
  {
    n < 0 && Resized(p.sz, n) < p.sz ==>
      Resized(p.sz, n) != 0 && forall vp :: vp in p.pages && PageUp(Resized(p.sz, n)) <= vp < UPAGES ==>
          !Missed(p.dir, PageUp(Resized(p.sz, n)), vp)
  }

  ghost predicate Allowed(l: Proc, op: Op)
    requires OpOk(op) && l.sz < KERNBASE
  {
    op.Sbrk? && !l.killed ==> Shrinks(l, op.n)
  }

  lemma PageUpBounds(sz: nat)
    requires sz < KERNBASE
    ensures PageUp(sz) <= UPAGES
    ensures forall vp: nat :: vp < PageUp(sz) <==> vp * PGSIZE < sz
  {
  }

  /** A shrink that misses nothing removes exactly the pages at or above the new size. */
  lemma ShrinkExact(p: Proc, size: nat, vp: nat)
    requires Tabled(p) && size < p.sz < KERNBASE && vp in p.pages && vp < PageUp(p.sz)
    requires PageUp(size) <= vp ==> !Missed(p.dir, PageUp(size), vp)
    ensures vp in Visited(p.dir, PageUp(size), PageUp(p.sz)) <==> PageUp(size) <= vp
  {
    PageUpBounds(p.sz);
    if PageUp(size) <= vp {
      VisitedExactly(p.dir, PageUp(size), PageUp(p.sz), vp);
    } else if vp in Visited(p.dir, PageUp(size), PageUp(p.sz)) {
      VisitedRange(p.dir, PageUp(size), PageUp(p.sz), vp);
    }
  }

  /** Under the default allocator the start page of a shrink is present, so nothing is missed. */
  lemma EagerMissesNothing(e: Proc, a: nat, vp: nat)
    requires Tabled(e) && (forall q :: q in e.pages <==> 0 <= q < PageUp(e.sz)) && vp in e.pages && a <= vp
    requires a < UPAGES
    ensures vp < UPAGES && !Missed(e.dir, a, vp)
  {
    assert a in e.pages;
  }

  lemma ShrinkMatch(l: Proc, e: Proc, n: int)
    requires Match(l, e) && Tabled(l) && Tabled(e) && !l.killed && -0x8000_0000 <= n < 0 && Shrinks(l, n)
    requires Resized(l.sz, n) < l.sz
    ensures Match(Grow(l, n, true).p, Grow(e, n, false).p) && Grow(l, n, true).r == Grow(e, n, false).r
  {
    var size := Resized(l.sz, n);
    var l', e' := Grow(l, n, true).p, Grow(e, n, false).p;
    PageUpBounds(l.sz);
    PageUpBounds(size);
    assert PageUp(size) <= PageUp(l.sz);
    forall vp | vp in e.pages ensures vp in e'.pages <==> vp < PageUp(size) {
      if PageUp(size) <= vp {
        EagerMissesNothing(e, PageUp(size), vp);
      }
      ShrinkExact(e, size, vp);
    }
    forall vp | vp in l.pages ensures vp in l'.pages <==> vp < PageUp(size) {
      ShrinkExact(l, size, vp);
    }
  }

  lemma GrowMatch(l: Proc, e: Proc, n: int)
    requires Match(l, e) && !l.killed && 0 < n < 0x8000_0000
    ensures Match(Grow(l, n, true).p, Grow(e, n, false).p) && Grow(l, n, true).r == Grow(e, n, false).r
  {
    var size := Resized(l.sz, n);
    if size < KERNBASE {
      PageUpBounds(l.sz);
      PageUpBounds(size);
    }
  }

  lemma TouchMatch(l: Proc, e: Proc, vp: nat)
    requires Match(l, e) && !l.killed && vp < VPAGES
    ensures Match(Touch(l, vp, true), Touch(e, vp, false))
    ensures vp in Touch(l, vp, true).pages <==> vp in Touch(e, vp, false).pages
    ensures vp in Touch(e, vp, false).pages ==> Touch(l, vp, true).pages[vp] == Touch(e, vp, false).pages[vp]
  {
    PageUpBounds(l.sz);
  }

  /** One step: same result, and the processes still match. */
  lemma StepMatch(l: Proc, e: Proc, op: Op)
    requires Match(l, e) && Tabled(l) && Tabled(e) && OpOk(op) && Allowed(l, op)
    ensures Match(Step(l, op, true).0, Step(e, op, false).0) && Step(l, op, true).1 == Step(e, op, false).1
  {
    if !l.killed {
      match op
      case Sbrk(n) =>
        if n > 0 {
          GrowMatch(l, e, n);
        } else if n < 0 && Resized(l.sz, n) < l.sz {
          ShrinkMatch(l, e, n);
        }
      case Load(vp, i) => TouchMatch(l, e, vp);
      case Store(vp, i, w) => TouchMatch(l, e, vp);
    }
  }

  // ---- Whole runs ----

  /** p' and out follow from p by op.  The operation may add page tables, where it likes, as long as
      every present page has one. */
  ghost predicate Next(p: Proc, op: Op, p': Proc, out: Out, lazily: bool) {
    && OpOk(op) && p.sz < KERNBASE && Tabled(p) && Tabled(p')
    && out == Step(p, op, lazily).1 && p' == Step(p, op, lazily).0.(dir := p'.dir)
  }

  /** A run of ops through the states ps, with results outs. */
  ghost predicate Run(ps: seq<Proc>, ops: seq<Op>, outs: seq<Out>, lazily: bool) {
    && |ps| == |ops| + 1 == |outs| + 1
    && (forall i {:trigger ops[i]} :: 0 <= i < |ops| ==> Next(ps[i], ops[i], ps[i + 1], outs[i], lazily))
  }

  lemma NextMatch(l: Proc, e: Proc, op: Op, l': Proc, e': Proc, lout: Out, eout: Out)
    requires Match(l, e) && OpOk(op) && l.sz < KERNBASE && Allowed(l, op)
    requires Next(l, op, l', lout, true) && Next(e, op, e', eout, false)
    ensures Match(l', e') && lout == eout
  {
    StepMatch(l, e, op);
  }

  ghost predicate AllAllowed(ls: seq<Proc>, ops: seq<Op>) {
    && |ls| == |ops| + 1
    && (forall i :: 0 <= i < |ops| ==> OpOk(ops[i]) && ls[i].sz < KERNBASE && Allowed(ls[i], ops[i]))
  }

  lemma {:induction false} RunMatch(ls: seq<Proc>, es: seq<Proc>, ops: seq<Op>, louts: seq<Out>, eouts: seq<Out>,
                                    k: nat)
    requires Run(ls, ops, louts, true) && Run(es, ops, eouts, false) && Match(ls[0], es[0]) && k <= |ops|
    requires AllAllowed(ls, ops)
    ensures Match(ls[k], es[k]) && (k > 0 ==> louts[k - 1] == eouts[k - 1])
  {
    hide Match, Next, Allowed, OpOk;
    if k > 0 {
      var j := k - 1;
      RunMatch(ls, es, ops, louts, eouts, j);
      var op := ops[j];
      assert Next(ls[j], op, ls[j + 1], louts[j], true) && Next(es[j], op, es[j + 1], eouts[j], false);
      NextMatch(ls[j], es[j], op, ls[k], es[k], louts[j], eouts[j]);
    }
  }

  /** Over every run of sbrk, loads and stores, the lazy process sees what the eager one sees: the same
      return values, the same contents, and death at the same accesses. */
  lemma LazyEqualsEager(ls: seq<Proc>, es: seq<Proc>, ops: seq<Op>, louts: seq<Out>, eouts: seq<Out>)
    requires Run(ls, ops, louts, true) && Run(es, ops, eouts, false) && Match(ls[0], es[0])
    requires AllAllowed(ls, ops)
    ensures louts == eouts
  {
    forall k | 0 <= k < |louts| ensures louts[k] == eouts[k] {
      RunMatch(ls, es, ops, louts, eouts, k + 1);
    }
  }

  /** The accesses that kill a process are those at or above its size, rounded up to a page. */
  lemma KilledExactly(l: Proc, e: Proc, vp: nat, i: nat)
    requires Match(l, e) && !l.killed && vp < VPAGES && i < NPT
    ensures Step(l, Load(vp, i), true).0.killed <==> vp >= PageUp(l.sz)
    ensures Step(e, Load(vp, i), false).0.killed <==> vp >= PageUp(l.sz)
  {
    PageUpBounds(l.sz);
  }

  // ---- Where they differ ----

  /** A shrink outside `Shrinks` is told apart by one load: shrinking to exactly zero fails after
      freeing every page but keeps the size, and a missed page stays readable. */
  lemma OtherwiseDistinguishable(l: Proc, e: Proc, n: int) returns (vp: nat)
    requires Match(l, e) && Tabled(l) && Tabled(e) && !l.killed && -0x8000_0000 <= n < 0x8000_0000 && !Shrinks(l, n)
    ensures vp < VPAGES
    ensures Step(Grow(l, n, true).p, Load(vp, 0), true).1 != Step(Grow(e, n, false).p, Load(vp, 0), false).1
  {
    var size := Resized(l.sz, n);
    PageUpBounds(l.sz);
    PageUpBounds(size);
    var l', e' := Grow(l, n, true).p, Grow(e, n, false).p;
    forall q | q in e.pages ensures q in e'.pages <==> q < PageUp(size) {
      if PageUp(size) <= q {
        EagerMissesNothing(e, PageUp(size), q);
      }
      ShrinkExact(e, size, q);
    }
    if size == 0 {
      vp := 0;
      assert PageUp(0) == 0;
      assert 0 !in e'.pages;
    } else {
      vp :| vp in l.pages && PageUp(size) <= vp < UPAGES && Missed(l.dir, PageUp(size), vp);
      VisitedExactly(l.dir, PageUp(size), PageUp(l.sz), vp);
      assert vp in l'.pages && vp !in e'.pages;
    }
  }

  /** The directory of a process with a table for each index in tabs. */
  function DirWith(tabs: set<nat>): Page {
    seq(NPT, i => if i in tabs then 1 else 0)
  }

  /** A process of one page grows to three tables' worth of memory, touches the first page of the third
      table, and shrinks to five pages past the first table. */
  function GrowTouchShrink(): seq<Op> {
    [Sbrk((3 * NPT - 1) * PGSIZE), Load(2 * NPT, 0), Sbrk(-(2 * NPT - 5) * PGSIZE), Load(2 * NPT, 0)]
  }

  lemma LazyShrink(l: Proc, l': Proc)
    requires l == Proc(3 * NPT * PGSIZE, map[0 := Zeroes(), 2 * NPT := Zeroes()], DirWith({0, 2}), false)
    requires l' == l.(sz := (NPT + 5) * PGSIZE)
    ensures Grow(l, -(2 * NPT - 5) * PGSIZE, true) == Outcome(l', l.sz)
  {
    hide Visited, Zeroes;
    var lo, hi := NPT + 5, 3 * NPT;
    assert PageUp(l.sz) == hi && PageUp(l'.sz) == lo && Resized(l.sz, -(2 * NPT - 5) * PGSIZE) == l'.sz;
    assert NextTable(l.dir, 1) == 2;
    VisitedExactly(l.dir, lo, hi, 2 * NPT);
    if 0 in Visited(l.dir, lo, hi) {
      VisitedRange(l.dir, lo, hi, 0);
    }
    assert Without(l.pages, Visited(l.dir, lo, hi)) == l.pages;
  }

  lemma EagerShrink(e: Proc, e': Proc)
    requires e == Proc(3 * NPT * PGSIZE, ZeroPages(0, 3 * NPT), DirWith({0, 1, 2}), false)
    requires e' == Proc((NPT + 5) * PGSIZE, ZeroPages(0, NPT + 5), DirWith({0, 1, 2}), false)
    ensures Grow(e, -(2 * NPT - 5) * PGSIZE, false) == Outcome(e', e.sz)
  {
    hide Visited, Zeroes, ZeroPages;
    var lo, hi := NPT + 5, 3 * NPT;
    assert PageUp(e.sz) == hi && PageUp(e'.sz) == lo && Resized(e.sz, -(2 * NPT - 5) * PGSIZE) == e'.sz;
    forall vp | vp in e.pages ensures vp in Visited(e.dir, lo, hi) <==> lo <= vp {
      if lo <= vp {
        VisitsAll(e.dir, lo, hi, vp);
      } else if vp in Visited(e.dir, lo, hi) {
        VisitedRange(e.dir, lo, hi, vp);
      }
    }
    assert Without(e.pages, Visited(e.dir, lo, hi)) == e'.pages;
  }

  lemma EagerGrowth(p: Proc, e: Proc)
    requires p == Proc(PGSIZE, map[0 := Zeroes()], DirWith({0}), false)
    requires e == Proc(3 * NPT * PGSIZE, ZeroPages(0, 3 * NPT), DirWith({0, 1, 2}), false)
    ensures Grow(p, (3 * NPT - 1) * PGSIZE, false) == Outcome(e.(dir := p.dir), p.sz)
  {
    hide Zeroes, ZeroPages;
    assert PageUp(p.sz) == 1 && PageUp(e.sz) == 3 * NPT && Resized(p.sz, (3 * NPT - 1) * PGSIZE) == e.sz;
    assert p.pages + ZeroPages(1, 3 * NPT) == e.pages;
  }

  /** Under the lazy allocator the page it touched stays readable; under the default one the same
      access kills it. */
  lemma MissedPageStays() returns (ls: seq<Proc>, es: seq<Proc>, louts: seq<Out>, eouts: seq<Out>)
    ensures Run(ls, GrowTouchShrink(), louts, true) && Run(es, GrowTouchShrink(), eouts, false)
    ensures Match(ls[0], es[0]) && louts[..3] == eouts[..3] && louts[3] == Word(0) && eouts[3] == Dead
  {
    var one, all := map[0 := Zeroes()], ZeroPages(0, 3 * NPT);
    var start := Proc(PGSIZE, one, DirWith({0}), false);
    var l1 := Proc(3 * NPT * PGSIZE, one, DirWith({0}), false);
    var l2 := Proc(3 * NPT * PGSIZE, one[2 * NPT := Zeroes()], DirWith({0, 2}), false);
    var l3 := l2.(sz := (NPT + 5) * PGSIZE);
    ls, louts := [start, l1, l2, l3, l3], [Ret(PGSIZE), Word(0), Ret(3 * NPT * PGSIZE), Word(0)];
    var e1 := Proc(3 * NPT * PGSIZE, all, DirWith({0, 1, 2}), false);
    var e3 := Proc((NPT + 5) * PGSIZE, ZeroPages(0, NPT + 5), DirWith({0, 1, 2}), false);
    es, eouts := [start, e1, e1, e3, e3.(killed := true)], [Ret(PGSIZE), Word(0), Ret(3 * NPT * PGSIZE), Dead];
    hide ZeroPages, Zeroes, Run;
    LazyRun(ls, louts);
    EagerRun(es, eouts);
  }

  lemma LazyRun(ls: seq<Proc>, louts: seq<Out>)
    requires |ls| == 5 && |louts| == 4
    requires ls[0] == Proc(PGSIZE, map[0 := Zeroes()], DirWith({0}), false)
    requires ls[1] == ls[0].(sz := 3 * NPT * PGSIZE)
    requires ls[2] == Proc(3 * NPT * PGSIZE, map[0 := Zeroes(), 2 * NPT := Zeroes()], DirWith({0, 2}), false)
    requires ls[3] == ls[4] == ls[2].(sz := (NPT + 5) * PGSIZE)
    requires louts == [Ret(PGSIZE), Word(0), Ret(3 * NPT * PGSIZE), Word(0)]
    ensures Run(ls, GrowTouchShrink(), louts, true)
  {
    hide Visited, Without;
    LazyShrink(ls[2], ls[3]);
    var ops := GrowTouchShrink();
    assert Zeroes()[0] == 0;
    assert Next(ls[0], ops[0], ls[1], louts[0], true);
    assert Next(ls[1], ops[1], ls[2], louts[1], true);
    assert Next(ls[2], ops[2], ls[3], louts[2], true);
    assert Next(ls[3], ops[3], ls[4], louts[3], true);
    hide Next;
  }

  lemma EagerRun(es: seq<Proc>, eouts: seq<Out>)
    requires |es| == 5 && |eouts| == 4
    requires es[0] == Proc(PGSIZE, map[0 := Zeroes()], DirWith({0}), false)
    requires es[1] == es[2] == Proc(3 * NPT * PGSIZE, ZeroPages(0, 3 * NPT), DirWith({0, 1, 2}), false)
    requires es[3] == Proc((NPT + 5) * PGSIZE, ZeroPages(0, NPT + 5), DirWith({0, 1, 2}), false)
    requires es[4] == es[3].(killed := true)
    requires eouts == [Ret(PGSIZE), Word(0), Ret(3 * NPT * PGSIZE), Dead]
    ensures Run(es, GrowTouchShrink(), eouts, false)
  {
    hide ZeroPages, Grow;
    EagerGrowth(es[0], es[1]);
    EagerShrink(es[2], es[3]);
    var ops := GrowTouchShrink();
    assert Zeroes()[0] == 0;
    assert Next(es[0], ops[0], es[1], eouts[0], false);
    assert Next(es[1], ops[1], es[2], eouts[1], false);
    assert Next(es[2], ops[2], es[3], eouts[2], false);
    assert Next(es[3], ops[3], es[4], eouts[3], false);
    hide Next;
  }

  // ---- Memory is memory ----

  /** A word that has been stored is what a load then finds; every other word is as it was. */
  lemma StoreLaw(p: Proc, vp: nat, i: nat, w: nat, vq: nat, j: nat, lazily: bool)
    requires p.sz < KERNBASE && vp < VPAGES && i < NPT && vq < VPAGES && j < NPT
    requires Step(p, Store(vp, i, w), lazily).1 == Done
    ensures var q := Step(p, Store(vp, i, w), lazily).0;
            && q.sz == p.sz
            && Step(q, Load(vq, j), lazily).1 ==
               if vq == vp && j == i then Word(w) else Step(p, Load(vq, j), lazily).1
  {
  }

  /** A load changes nothing that another load could see. */
  lemma LoadLaw(p: Proc, vp: nat, i: nat, vq: nat, j: nat, lazily: bool)
    requires p.sz < KERNBASE && vp < VPAGES && i < NPT && vq < VPAGES && j < NPT
    requires Step(p, Load(vp, i), lazily).1.Word?
    ensures var q := Step(p, Load(vp, i), lazily).0;
            q.sz == p.sz && Step(q, Load(vq, j), lazily).1 == Step(p, Load(vq, j), lazily).1
  {
  }

  /** A successful sbrk under the default allocator keeps every word below both sizes, and new pages read
      as zero. */
  lemma SbrkLaw(l: Proc, e: Proc, n: int, vp: nat, i: nat)
    requires Match(l, e) && Tabled(e) && !e.killed && -0x8000_0000 <= n < 0x8000_0000 && vp < VPAGES && i < NPT
    requires Grow(e, n, false).r != -1
    ensures var q := Grow(e, n, false).p;
            && Grow(e, n, false).r == e.sz && q.sz == (if e.sz + n < 0 then e.sz else e.sz + n) < KERNBASE
            && Step(q, Load(vp, i), false).1 ==
               if vp >= PageUp(q.sz) then Dead else if vp < PageUp(e.sz) then Step(e, Load(vp, i), false).1 else Word(0)
  {
    var size := Resized(e.sz, n);
    PageUpBounds(e.sz);
    if n < 0 && size < e.sz {
      PageUpBounds(size);
      if vp in e.pages {
        if PageUp(size) <= vp {
          EagerMissesNothing(e, PageUp(size), vp);
        }
        ShrinkExact(e, size, vp);
      }
    }
  }
}
