/** The buffer cache under the log: any interleaving of buffer operations, transactions, the
    committer's block writes, crashes and reboots.

    The machine's steps are the atomic actions of bio.c and log.c.  It is shown to refine a plain
    specification with two copies of every home block: the contents every reader sees (`view`) and
    the contents a crash falls back to (`durable`).  Only a commit moves the one into the other,
    all at once and while no operation is in progress. */
module BufferLog {
  import opened Common
  import opened LogCrash

  /** Who has a buffer: a process, or the code that commits and recovers. */
  datatype Who = Proc(id: nat) | Committer

  /** struct buf.  `owner` is B_BUSY together with the process it is busy for; `blockno` is
      negative while the buffer caches nothing; `changed` marks data altered since the last
      log_write. */
  datatype Buf = Buf(blockno: int, owner: Option<Who>, valid: bool, dirty: bool, changed: bool, data: Block)

  /** Where the log is: idle, copying block i of the transaction to the log, copying logged block i
      home (in a commit or in recovery), or just rebooted. */
  datatype Phase = Idle | Writing(i: nat) | Installing(i: nat, recovering: bool) | Booting

  datatype Sys = Sys(disk: Disk, bufs: seq<Buf>, lh: seq<int>, ops: set<nat>, phase: Phase)

  datatype Step =
    | BeginOp(p: nat)
    | EndOp(p: nat)
    | Hit(w: Who, i: nat)               // bget finds the block cached
    | Miss(w: Who, b: nat, i: nat)      // bget recycles buffer i for block b
    | Fetch(i: nat)                     // iderw fills a buffer that is not valid
    | Modify(p: nat, i: nat, data: Block)
    | LogWrite(p: nat, i: nat)
    | Release(w: Who, i: nat)
    | CommitLog(t: nat, f: nat)         // write_log: one block from the cache to the log
    | CommitHead(h: nat)                // write_head: the commit point
    | Install(l: nat, d: nat)           // install_trans: one block from the log to its home
    | Clear(h: nat)                     // write_head with n = 0
    | Crash
    | Boot(h: nat)                      // read_head

  function Zeroes(): Block {
    seq(WORDS, i => 0)
  }

  /** A buffer that caches nothing. */
  function Empty(): Buf {
    Buf(-1, None, false, false, false, Zeroes())
  }

  predicate Recovering(ph: Phase) {
    ph.Booting? || (ph.Installing? && ph.recovering)
  }

  /** A header block rewritten to list `list`, stale words kept. */
  function HeaderBlock(h: Block, list: seq<int>): Block
    requires |list| <= LOGSIZE
  {
    seq(WORDS, j requires 0 <= j < WORDS =>
      if j == 0 then |list| else if j <= |list| then list[j - 1] else h[j])
  }

  /** Buffer i holds the valid contents of block b on behalf of the committer. */
  predicate Held(s: Sys, i: nat, b: int) {
    && i < |s.bufs|
    && s.bufs[i].owner == Some(Committer)
    && s.bufs[i].valid
    && s.bufs[i].blockno == b
  }

  predicate MayUse(s: Sys, w: Who) {
    match w
    case Proc(_) => !Recovering(s.phase)
    case Committer => !s.phase.Idle?
  }

  predicate Enabled(lay: Layout, s: Sys, st: Step) {
    match st
    case BeginOp(p) =>
      s.phase.Idle? && p !in s.ops && |s.lh| + (|s.ops| + 1) * MAXOPBLOCKS <= LOGSIZE
    case EndOp(p) =>
      p in s.ops && forall i :: 0 <= i < |s.bufs| ==> s.bufs[i].owner != Some(Proc(p))
    case Hit(w, i) =>
      MayUse(s, w) && i < |s.bufs| && s.bufs[i].blockno >= 0 && s.bufs[i].owner == None
    case Miss(w, b, i) =>
      && MayUse(s, w) && i < |s.bufs| && b < |s.disk|
      && (forall j :: 0 <= j < |s.bufs| ==> s.bufs[j].blockno != b)
      && s.bufs[i].owner == None && !s.bufs[i].dirty
    case Fetch(i) =>
      i < |s.bufs| && s.bufs[i].owner != None && !s.bufs[i].valid && 0 <= s.bufs[i].blockno < |s.disk|
    case Modify(p, i, data) =>
      && i < |s.bufs| && s.bufs[i].owner == Some(Proc(p)) && p in s.ops && s.bufs[i].valid
      && !InLog(lay, s.bufs[i].blockno)
    case LogWrite(p, i) =>
      && i < |s.bufs| && s.bufs[i].owner == Some(Proc(p)) && p in s.ops && s.bufs[i].valid
      && !InLog(lay, s.bufs[i].blockno)
      && |s.lh| < LOGSIZE && |s.lh| + 1 < lay.size
    case Release(w, i) =>
      i < |s.bufs| && s.bufs[i].owner == Some(w) && s.bufs[i].valid && !s.bufs[i].changed
    case CommitLog(t, f) =>
      && s.phase.Writing? && s.phase.i < |s.lh|
      && lay.start + s.phase.i + 1 < |s.disk|
      && Held(s, t, lay.start + s.phase.i + 1) && Held(s, f, s.lh[s.phase.i])
    case CommitHead(h) =>
      && s.phase.Writing? && s.phase.i == |s.lh| <= LOGSIZE && lay.start < |s.disk|
      && Held(s, h, lay.start)
    case Install(l, d) =>
      && s.phase.Installing? && s.phase.i < |s.lh| && 0 <= s.lh[s.phase.i] < |s.disk|
      && Held(s, l, lay.start + s.phase.i + 1) && Held(s, d, s.lh[s.phase.i])
    case Clear(h) =>
      s.phase.Installing? && s.phase.i == |s.lh| && lay.start < |s.disk| && Held(s, h, lay.start)
    case Crash => true
    case Boot(h) =>
      s.phase.Booting? && Held(s, h, lay.start) && 0 <= s.bufs[h].data[0] <= LOGSIZE
  }

  function Apply(lay: Layout, s: Sys, st: Step): Sys
    requires Enabled(lay, s, st)
  {
    match st
    case BeginOp(p) => s.(ops := s.ops + {p})
    case EndOp(p) =>
      var rest := s.ops - {p};
      s.(ops := rest, phase := if rest == {} && s.lh != [] then Writing(0) else Idle)
    case Hit(w, i) => s.(bufs := s.bufs[i := s.bufs[i].(owner := Some(w))])
    case Miss(w, b, i) => s.(bufs := s.bufs[i := Buf(b, Some(w), false, false, false, s.bufs[i].data)])
    case Fetch(i) =>
      s.(bufs := s.bufs[i := s.bufs[i].(valid := true, data := s.disk[s.bufs[i].blockno])])
    case Modify(p, i, data) => s.(bufs := s.bufs[i := s.bufs[i].(changed := true, data := data)])
    case LogWrite(p, i) =>
      s.(bufs := s.bufs[i := s.bufs[i].(dirty := true, changed := false)],
         lh := Absorb(s.lh, s.bufs[i].blockno))
    case Release(w, i) => s.(bufs := s.bufs[i := s.bufs[i].(owner := None)])
    case CommitLog(t, f) =>
      var data := s.bufs[f].data;
      s.(bufs := s.bufs[t := s.bufs[t].(data := data, dirty := false)],
         disk := s.disk[lay.start + s.phase.i + 1 := data],
         phase := Writing(s.phase.i + 1))
    case CommitHead(h) =>
      var data := HeaderBlock(s.bufs[h].data, s.lh);
      s.(bufs := s.bufs[h := s.bufs[h].(data := data, dirty := false)],
         disk := s.disk[lay.start := data],
         phase := Installing(0, false))
    case Install(l, d) =>
      var data := s.bufs[l].data;
      s.(bufs := s.bufs[d := s.bufs[d].(data := data, dirty := false)],
         disk := s.disk[s.lh[s.phase.i] := data],
         phase := Installing(s.phase.i + 1, s.phase.recovering))
    case Clear(h) =>
      var data := HeaderBlock(s.bufs[h].data, []);
      s.(bufs := s.bufs[h := s.bufs[h].(data := data, dirty := false)],
         disk := s.disk[lay.start := data], lh := [], phase := Idle)
    case Crash => Sys(s.disk, seq(|s.bufs|, i => Empty()), [], {}, Booting)
    case Boot(h) =>
      s.(lh := s.bufs[h].data[1..1 + s.bufs[h].data[0]], phase := Installing(0, true))
  }

  /** The machine is switched on with a disk whose header makes sense and a cold cache. */
  ghost predicate Init(lay: Layout, s: Sys) {
    && GoodDisk(lay, s.disk)
    && s.phase == Booting && s.lh == [] && s.ops == {}
    && forall i :: 0 <= i < |s.bufs| ==> s.bufs[i] == Empty()
  }

  // ---- Invariant ----

  /** At most one buffer caches a given block. */
  ghost predicate Unique(bufs: seq<Buf>) {
    forall i, j :: 0 <= i < j < |bufs| && bufs[i].blockno >= 0 ==> bufs[i].blockno != bufs[j].blockno
  }

  /** One buffer: clean valid data is what the disk holds, unlogged changes belong to an open
      operation, and dirty buffers belong to the transaction. */
  ghost predicate BufOk(lay: Layout, s: Sys, b: Buf) {
    && b.blockno < |s.disk|
    && (b.blockno < 0 ==> b.owner == None && !b.valid)
    && (!b.valid ==> !b.dirty && !b.changed)
    && (b.owner == None ==> !b.changed && (b.valid || b.blockno < 0))
    && (b.valid && !b.dirty && !b.changed ==> b.data == s.disk[b.blockno])
    && (b.changed ==> b.owner.Some? && b.owner.value.Proc? && b.owner.value.id in s.ops)
    && (b.changed || b.dirty ==> !InLog(lay, b.blockno))
    && (b.dirty ==> b.blockno in s.lh && !Recovering(s.phase))
  }

  ghost predicate BufsOk(lay: Layout, s: Sys) {
    Unique(s.bufs) && forall i :: 0 <= i < |s.bufs| ==> BufOk(lay, s, s.bufs[i])
  }

  /** Some buffer pins the block: it is dirty, so it cannot be recycled. */
  ghost predicate Pinned(s: Sys, b: int) {
    exists i :: 0 <= i < |s.bufs| && s.bufs[i].blockno == b && s.bufs[i].valid && s.bufs[i].dirty
  }

  /** Logged blocks that are still to be installed by a commit are pinned. */
  ghost predicate PinnedFrom(s: Sys, k: int) {
    forall j :: 0 <= j < |s.lh| && k <= j ==> Pinned(s, s.lh[j])
  }

  /** The log copies of transaction blocks lo..hi are the contents cached for them. */
  ghost predicate Copied(lay: Layout, s: Sys, lo: int, hi: int)
    requires hi <= |s.lh| && lay.start + |s.lh| < |s.disk|
  {
    forall i, j :: 0 <= i < |s.bufs| && 0 <= lo <= j < hi && s.bufs[i].blockno == s.lh[j] && s.bufs[i].valid
      ==> s.bufs[i].data == s.disk[lay.start + 1 + j]
  }

  /** The first k logged blocks have reached their homes. */
  ghost predicate HomeUpTo(lay: Layout, s: Sys, k: int)
    requires k <= |s.lh| && lay.start + |s.lh| < |s.disk|
  {
    forall j :: 0 <= j < k ==> 0 <= s.lh[j] < |s.disk| && s.disk[s.lh[j]] == s.disk[lay.start + 1 + j]
  }

  /** Buffers of blocks that a commit has installed are clean again. */
  ghost predicate Cleaned(s: Sys, k: int)
    requires k <= |s.lh|
  {
    forall i, j :: 0 <= i < |s.bufs| && 0 <= j < k && s.bufs[i].blockno == s.lh[j] ==> !s.bufs[i].dirty
  }

  ghost predicate PhaseOk(lay: Layout, s: Sys)
    requires GoodDisk(lay, s.disk) && GoodList(lay, |s.disk|, s.lh)
  {
    && (s.ops != {} ==> s.phase.Idle?)
    && match s.phase
       case Idle => Listed(lay, s.disk) == [] && (s.ops == {} ==> s.lh == []) && PinnedFrom(s, 0)
       case Writing(k) =>
         && Listed(lay, s.disk) == [] && k <= |s.lh| && PinnedFrom(s, 0) && Copied(lay, s, 0, k)
       case Installing(k, recovering) =>
         && Listed(lay, s.disk) == s.lh && k <= |s.lh| && HomeUpTo(lay, s, k) && Cleaned(s, k)
         && (!recovering ==> PinnedFrom(s, k) && Copied(lay, s, 0, |s.lh|))
       case Booting => s.lh == []
  }

  ghost predicate Inv(lay: Layout, s: Sys) {
    && GoodDisk(lay, s.disk)
    && GoodList(lay, |s.disk|, s.lh)
    && BufsOk(lay, s)
    && PhaseOk(lay, s)
  }

  // ---- The specification ----

  /** Home blocks as every reader sees them, as a crash would restore them, and the operations in
      progress.  Blocks of the log area are outside the specification. */
  datatype Spec = Spec(view: map<int, Block>, durable: map<int, Block>, ops: set<nat>)

  ghost predicate SpecInit(a: Spec) {
    a.view == a.durable && a.ops == {}
  }

  datatype SpecStep =
    | Stutter
    | Begin(p: nat)
    | End(p: nat)
    | Write(b: int, data: Block)
    | Commit
    | Lose

  ghost predicate SpecNext(a: Spec, a': Spec, st: SpecStep) {
    match st
    case Stutter => a' == a
    case Begin(p) => a' == a.(ops := a.ops + {p})
    case End(p) => p in a.ops && a' == a.(ops := a.ops - {p})
    case Write(b, data) => a.ops != {} && b in a.view && a' == a.(view := a.view[b := data])
    case Commit => a.ops == {} && a' == a.(durable := a.view)
    case Lose => a' == Spec(a.durable, a.durable, {})
  }

  /** The specification step that a step of the machine takes. */
  function SpecOf(s: Sys, st: Step): SpecStep {
    match st
    case BeginOp(p) => Begin(p)
    case EndOp(p) => End(p)
    case Modify(p, i, data) => if i < |s.bufs| then Write(s.bufs[i].blockno, data) else Stutter
    case CommitHead(h) => Commit
    case Crash => Lose
    case _ => Stutter
  }

  /** What a reader of block b gets: the cached contents if there are any. */
  ghost function CacheView(s: Sys, b: int): Block
    requires 0 <= b < |s.disk|
  {
    if i :| 0 <= i < |s.bufs| && s.bufs[i].blockno == b && s.bufs[i].valid then s.bufs[i].data
    else s.disk[b]
  }

  ghost function View(lay: Layout, s: Sys, b: int): Block
    requires GoodDisk(lay, s.disk) && 0 <= b < |s.disk|
  {
    if Recovering(s.phase) then RecoverView(lay, s.disk, b) else CacheView(s, b)
  }

  ghost function Abs(lay: Layout, s: Sys): Spec
    requires GoodDisk(lay, s.disk)
  {
    Spec(map b | 0 <= b < |s.disk| && !InLog(lay, b) :: View(lay, s, b),
         map b | 0 <= b < |s.disk| && !InLog(lay, b) :: RecoverView(lay, s.disk, b),
         s.ops)
  }

  /** Everything a buffer holds agrees with the reader's view: bread returns the latest contents. */
  lemma ReadsView(lay: Layout, s: Sys, i: nat)
    requires Inv(lay, s) && !Recovering(s.phase)
    requires i < |s.bufs| && s.bufs[i].valid && !InLog(lay, s.bufs[i].blockno)
    ensures s.bufs[i].blockno in Abs(lay, s).view
    ensures s.bufs[i].data == Abs(lay, s).view[s.bufs[i].blockno]
  {
    CachedIs(s, i);
  }

  lemma CachedIs(s: Sys, i: nat)
    requires Unique(s.bufs) && i < |s.bufs| && s.bufs[i].valid && 0 <= s.bufs[i].blockno < |s.disk|
    ensures CacheView(s, s.bufs[i].blockno) == s.bufs[i].data
  {
  }

  // ---- Replacing one buffer ----

  function With(s: Sys, i: nat, nb: Buf): Sys
    requires i < |s.bufs|
  {
    s.(bufs := s.bufs[i := nb])
  }

  lemma OneBufOk(lay: Layout, s: Sys, i: nat, nb: Buf)
    requires BufsOk(lay, s) && i < |s.bufs| && BufOk(lay, s, nb)
    requires nb.blockno >= 0 ==> forall j :: 0 <= j < |s.bufs| && j != i ==> s.bufs[j].blockno != nb.blockno
    ensures BufsOk(lay, With(s, i, nb))
  {
  }

  lemma OneBufPins(s: Sys, i: nat, nb: Buf, k: int)
    requires i < |s.bufs| && PinnedFrom(s, k)
    requires s.bufs[i].valid && s.bufs[i].dirty ==> nb.blockno == s.bufs[i].blockno && nb.valid && nb.dirty
    ensures PinnedFrom(With(s, i, nb), k)
  {
    var s' := With(s, i, nb);
    forall j | 0 <= j < |s.lh| && k <= j ensures Pinned(s', s.lh[j]) {
      assert Pinned(s, s.lh[j]);
      var m :| 0 <= m < |s.bufs| && s.bufs[m].blockno == s.lh[j] && s.bufs[m].valid && s.bufs[m].dirty;
      assert s'.bufs[m].blockno == s.lh[j] && s'.bufs[m].valid && s'.bufs[m].dirty;
    }
  }

  /** A buffer that shows the same contents as before, or the disk's, leaves every view alone. */
  lemma OneBufView(s: Sys, i: nat, nb: Buf)
    requires i < |s.bufs| && Unique(s.bufs) && Unique(s.bufs[i := nb])
    requires s.bufs[i].valid ==>
               0 <= s.bufs[i].blockno < |s.disk|
               && (SameShown(s.bufs[i], nb) || s.bufs[i].data == s.disk[s.bufs[i].blockno])
    requires nb.valid ==>
               0 <= nb.blockno < |s.disk|
               && (SameShown(s.bufs[i], nb) || nb.data == s.disk[nb.blockno])
    ensures forall b :: 0 <= b < |s.disk| ==> CacheView(With(s, i, nb), b) == CacheView(s, b)
  {
    var s' := With(s, i, nb);
    forall b | 0 <= b < |s.disk| ensures CacheView(s', b) == CacheView(s, b) {
      if m :| 0 <= m < |s.bufs| && s.bufs[m].blockno == b && s.bufs[m].valid {
        CachedIs(s, m);
        if s'.bufs[m].valid && s'.bufs[m].blockno == b {
          CachedIs(s', m);
        }
      } else {
        if m :| 0 <= m < |s'.bufs| && s'.bufs[m].blockno == b && s'.bufs[m].valid {
          CachedIs(s', m);
        }
      }
    }
  }

  predicate SameShown(b: Buf, c: Buf) {
    b.valid && c.valid && b.blockno == c.blockno && b.data == c.data
  }

  lemma AbsSame(lay: Layout, s: Sys, s': Sys)
    requires GoodDisk(lay, s.disk) && s'.disk == s.disk && Recovering(s.phase) == Recovering(s'.phase)
    requires forall b :: 0 <= b < |s.disk| ==> CacheView(s', b) == CacheView(s, b)
    ensures Abs(lay, s').view == Abs(lay, s).view && Abs(lay, s').durable == Abs(lay, s).durable
  {
  }

  // ---- Each step keeps the invariant and refines the specification ----

  ghost predicate StepOk(lay: Layout, s: Sys, st: Step)
    requires Enabled(lay, s, st) && GoodDisk(lay, s.disk)
  {
    var s' := Apply(lay, s, st);
    && Inv(lay, s')
    && SpecNext(Abs(lay, s), Abs(lay, s'), SpecOf(s, st))
  }

  lemma OpStep(lay: Layout, s: Sys, st: Step)
    requires Inv(lay, s) && Enabled(lay, s, st) && (st.BeginOp? || st.EndOp?)
    ensures StepOk(lay, s, st)
  {
    var s' := Apply(lay, s, st);
    OpBufs(lay, s, st);
    PinsSame(s, s');
    AbsSame(lay, s, s');
    hide BufsOk, PinnedFrom, Abs, GoodDisk, GoodList;
  }

  lemma OpBufs(lay: Layout, s: Sys, st: Step)
    requires Inv(lay, s) && Enabled(lay, s, st) && (st.BeginOp? || st.EndOp?)
    ensures s.phase.Idle? && PinnedFrom(s, 0)
    ensures var s' := Apply(lay, s, st);
            && s'.bufs == s.bufs && s'.disk == s.disk && s'.lh == s.lh && BufsOk(lay, s')
            && (forall b :: 0 <= b < |s.disk| ==> CacheView(s', b) == CacheView(s, b))
  {
    var s' := Apply(lay, s, st);
    hide PhaseOk, GoodDisk, GoodList;
    forall i | 0 <= i < |s.bufs| ensures BufOk(lay, s', s'.bufs[i]) {
      assert BufOk(lay, s, s.bufs[i]);
    }
  }

  lemma PinsSame(s: Sys, s': Sys)
    requires s'.bufs == s.bufs && s'.lh == s.lh && PinnedFrom(s, 0)
    ensures PinnedFrom(s', 0)
  {
    forall j | 0 <= j < |s.lh| ensures Pinned(s', s.lh[j]) {
      assert Pinned(s, s.lh[j]);
    }
  }

  lemma OwnerStep(lay: Layout, s: Sys, st: Step)
    requires Inv(lay, s) && Enabled(lay, s, st) && (st.Hit? || st.Release?)
    ensures StepOk(lay, s, st)
  {
    var i := st.i;
    var nb := if st.Hit? then s.bufs[i].(owner := Some(st.w)) else s.bufs[i].(owner := None);
    assert BufOk(lay, s, s.bufs[i]);
    QuietBuf(lay, s, i, nb);
  }

  /** A change of one buffer that no reader can see keeps the invariant. */
  lemma QuietBuf(lay: Layout, s: Sys, i: nat, nb: Buf)
    requires Inv(lay, s) && i < |s.bufs| && BufOk(lay, s, nb)
    requires nb.blockno >= 0 ==> forall j :: 0 <= j < |s.bufs| && j != i ==> s.bufs[j].blockno != nb.blockno
    requires s.bufs[i].dirty ==> nb.dirty && SameShown(s.bufs[i], nb)
    requires nb.changed == s.bufs[i].changed
    requires nb.changed ==> SameShown(s.bufs[i], nb)
    requires nb.dirty ==> s.bufs[i].dirty
    ensures Inv(lay, With(s, i, nb))
    ensures Abs(lay, With(s, i, nb)) == Abs(lay, s)
  {
    var s' := With(s, i, nb);
    assert BufOk(lay, s, s.bufs[i]);
    OneBufOk(lay, s, i, nb);
    OneBufView(s, i, nb);
    AbsSame(lay, s, s');
    QuietPhase(lay, s, i, nb);
    hide GoodDisk, GoodList, BufsOk, PhaseOk, BufOk, Unique, CacheView;
  }

  lemma QuietPhase(lay: Layout, s: Sys, i: nat, nb: Buf)
    requires Inv(lay, s) && i < |s.bufs| && BufOk(lay, s, nb)
    requires s.bufs[i].dirty ==> nb.dirty && SameShown(s.bufs[i], nb)
    requires nb.changed == s.bufs[i].changed && (nb.dirty ==> s.bufs[i].dirty)
    requires nb.blockno >= 0 ==> forall j :: 0 <= j < |s.bufs| && j != i ==> s.bufs[j].blockno != nb.blockno
    ensures PhaseOk(lay, With(s, i, nb))
  {
    assert BufOk(lay, s, s.bufs[i]);
    match s.phase
    case Idle => OneBufPins(s, i, nb, 0);
    case Writing(k) =>
      OneBufPins(s, i, nb, 0);
      QuietCopied(lay, s, i, nb, 0, k);
    case Installing(k, recovering) =>
      if !recovering {
        OneBufPins(s, i, nb, k);
        QuietCopied(lay, s, i, nb, k, |s.lh|);
      }
    case Booting =>
  }

  /** The changed buffer still shows the log copy of its block, if it has one: its block is pinned by
      it, or is home. */
  lemma QuietCopied(lay: Layout, s: Sys, i: nat, nb: Buf, k: nat, hi: nat)
    requires GoodList(lay, |s.disk|, s.lh) && lay.start + |s.lh| < |s.disk| && i < |s.bufs| && BufOk(lay, s, nb)
    requires s.bufs[i].dirty ==> nb.dirty && SameShown(s.bufs[i], nb)
    requires !nb.changed && (nb.dirty ==> s.bufs[i].dirty)
    requires nb.blockno >= 0 ==> forall j :: 0 <= j < |s.bufs| && j != i ==> s.bufs[j].blockno != nb.blockno
    requires hi <= |s.lh| && k <= |s.lh| && PinnedFrom(s, k) && HomeUpTo(lay, s, k) && Copied(lay, s, 0, hi)
    ensures Copied(lay, With(s, i, nb), 0, hi)
  {
    forall j | 0 <= j < hi && nb.blockno == s.lh[j] && nb.valid ensures nb.data == s.disk[lay.start + 1 + j] {
      if j >= k {
        assert Pinned(s, s.lh[j]);
      }
    }
  }

  lemma MissStep(lay: Layout, s: Sys, st: Step)
    requires Inv(lay, s) && Enabled(lay, s, st) && st.Miss?
    ensures StepOk(lay, s, st)
  {
    assert BufOk(lay, s, s.bufs[st.i]);
    QuietBuf(lay, s, st.i, Buf(st.b, Some(st.w), false, false, false, s.bufs[st.i].data));
  }

  lemma FetchStep(lay: Layout, s: Sys, st: Step)
    requires Inv(lay, s) && Enabled(lay, s, st) && st.Fetch?
    ensures StepOk(lay, s, st)
  {
    assert BufOk(lay, s, s.bufs[st.i]);
    QuietBuf(lay, s, st.i, s.bufs[st.i].(valid := true, data := s.disk[s.bufs[st.i].blockno]));
  }

  lemma ModifyStep(lay: Layout, s: Sys, st: Step)
    requires Inv(lay, s) && Enabled(lay, s, st) && st.Modify?
    ensures StepOk(lay, s, st)
  {
    assert st.i < |s.bufs|;
    hide Apply, Enabled, CacheView, GoodList, GoodDisk, BufOk, Unique, RecoverView, Abs;
    var i, b := st.i, s.bufs[st.i].blockno;
    var nb := s.bufs[i].(changed := true, data := st.data);
    var s' := Apply(lay, s, st);
    ModifyBuf(lay, s, st);
    OneBufPins(s, i, nb, 0);
    ModifyView(lay, s, i, nb);
    ModifyAbs(lay, s, s', b, st.data);
  }

  lemma ModifyBuf(lay: Layout, s: Sys, st: Step)
    requires Inv(lay, s) && Enabled(lay, s, st) && st.Modify?
    ensures var nb := s.bufs[st.i].(changed := true, data := st.data);
            && Apply(lay, s, st) == With(s, st.i, nb) && BufsOk(lay, With(s, st.i, nb))
            && s.bufs[st.i].valid && 0 <= nb.blockno < |s.disk| && !InLog(lay, nb.blockno)
    ensures s.phase.Idle? && s.ops != {}
  {
    var nb := s.bufs[st.i].(changed := true, data := st.data);
    assert BufOk(lay, s, s.bufs[st.i]);
    hide PhaseOk;
    OneBufOk(lay, s, st.i, nb);
  }

  lemma ModifyAbs(lay: Layout, s: Sys, s': Sys, b: int, data: Block)
    requires GoodDisk(lay, s.disk) && s'.disk == s.disk && s'.ops == s.ops
    requires !Recovering(s.phase) && !Recovering(s'.phase) && 0 <= b < |s.disk| && !InLog(lay, b)
    requires forall c :: 0 <= c < |s.disk| ==> CacheView(s', c) == if c == b then data else CacheView(s, c)
    ensures b in Abs(lay, s).view && Abs(lay, s') == Abs(lay, s).(view := Abs(lay, s).view[b := data])
  {
    hide CacheView, RecoverView, GoodDisk;
    assert Abs(lay, s').view == Abs(lay, s).view[b := data];
  }

  lemma ModifyView(lay: Layout, s: Sys, i: nat, nb: Buf)
    requires i < |s.bufs| && BufsOk(lay, s) && BufsOk(lay, With(s, i, nb))
    requires s.bufs[i].valid && nb.valid && nb.blockno == s.bufs[i].blockno
    ensures forall c :: 0 <= c < |s.disk|
              ==> CacheView(With(s, i, nb), c) == if c == nb.blockno then nb.data else CacheView(s, c)
  {
    var s' := With(s, i, nb);
    assert BufOk(lay, s, s.bufs[i]);
    CachedIs(s', i);
    forall c | 0 <= c < |s.disk| && c != nb.blockno ensures CacheView(s', c) == CacheView(s, c) {
      if m :| 0 <= m < |s.bufs| && s.bufs[m].blockno == c && s.bufs[m].valid {
        CachedIs(s, m);
        CachedIs(s', m);
      }
    }
  }

  lemma LogWriteStep(lay: Layout, s: Sys, st: Step)
    requires Inv(lay, s) && Enabled(lay, s, st) && st.LogWrite?
    ensures StepOk(lay, s, st)
  {
    var i := st.i;
    var s' := Apply(lay, s, st);
    assert BufOk(lay, s, s.bufs[i]);
    LogWriteBufs(lay, s, st);
    LogWritePins(s, s', i);
    OneBufView(s, i, s'.bufs[i]);
    forall c | 0 <= c < |s.disk| ensures CacheView(s', c) == CacheView(s, c) {
      assert CacheView(With(s, i, s'.bufs[i]), c) == CacheView(s', c);
    }
    AbsSame(lay, s, s');
    hide CacheView, BufsOk, Abs;
  }

  lemma LogWriteBufs(lay: Layout, s: Sys, st: Step)
    requires Inv(lay, s) && Enabled(lay, s, st) && st.LogWrite?
    ensures BufsOk(lay, Apply(lay, s, st))
  {
    var s' := Apply(lay, s, st);
    assert s.phase.Idle?;
    hide PhaseOk, GoodDisk;
    forall j | 0 <= j < |s'.bufs| ensures BufOk(lay, s', s'.bufs[j]) {
      assert BufOk(lay, s, s.bufs[j]);
    }
  }

  lemma LogWritePins(s: Sys, s': Sys, i: nat)
    requires PinnedFrom(s, 0) && i < |s.bufs| == |s'.bufs| && s'.bufs == s.bufs[i := s'.bufs[i]]
    requires s'.bufs[i].blockno == s.bufs[i].blockno && s'.bufs[i].valid && s'.bufs[i].dirty
    requires s'.lh == Absorb(s.lh, s.bufs[i].blockno)
    ensures PinnedFrom(s', 0)
  {
    forall j | 0 <= j < |s'.lh| ensures Pinned(s', s'.lh[j]) {
      if s'.lh[j] != s.bufs[i].blockno {
        assert s'.lh[j] == s.lh[j];
        assert Pinned(s, s.lh[j]);
        var m :| 0 <= m < |s.bufs| && s.bufs[m].blockno == s.lh[j] && s.bufs[m].valid && s.bufs[m].dirty;
        assert s'.bufs[m] == s.bufs[m];
      }
    }
  }

  /** A write by the committer to a block of the log area is invisible in the home blocks. */
  lemma LogBufView(lay: Layout, s: Sys, s': Sys, t: nat)
    requires BufsOk(lay, s) && BufsOk(lay, s') && t < |s.bufs| && |s'.bufs| == |s.bufs|
    requires |s'.disk| == |s.disk|
    requires forall j :: 0 <= j < |s.bufs| && j != t ==> s'.bufs[j] == s.bufs[j]
    requires s'.bufs[t].blockno == s.bufs[t].blockno && InLog(lay, s.bufs[t].blockno)
    requires forall b :: 0 <= b < |s.disk| && !InLog(lay, b) ==> s'.disk[b] == s.disk[b]
    ensures forall b :: 0 <= b < |s.disk| && !InLog(lay, b) ==> CacheView(s', b) == CacheView(s, b)
  {
    forall b | 0 <= b < |s.disk| && !InLog(lay, b) ensures CacheView(s', b) == CacheView(s, b) {
      if m :| 0 <= m < |s.bufs| && s.bufs[m].blockno == b && s.bufs[m].valid {
        CachedIs(s, m);
        CachedIs(s', m);
      } else {
        assert forall m :: 0 <= m < |s.bufs| && s'.bufs[m].blockno == b ==> m != t && !s'.bufs[m].valid;
      }
    }
  }

  /** The committer rewrites a log-area block in its buffer and on the disk. */
  lemma LogBufOk(lay: Layout, s: Sys, s': Sys, t: nat, data: Block)
    requires BufsOk(lay, s) && t < |s.bufs|
    requires s.bufs[t].owner == Some(Committer) && s.bufs[t].valid && InLog(lay, s.bufs[t].blockno)
    requires 0 <= s.bufs[t].blockno < |s.disk|
    requires s'.bufs == s.bufs[t := s.bufs[t].(data := data, dirty := false)]
    requires s'.disk == s.disk[s.bufs[t].blockno := data]
    requires s'.ops == s.ops
    requires forall j :: 0 <= j < |s.bufs| && s.bufs[j].dirty ==> s.bufs[j].blockno in s'.lh && !Recovering(s'.phase)
    ensures BufsOk(lay, s')
  {
    forall j | 0 <= j < |s'.bufs| ensures BufOk(lay, s', s'.bufs[j]) {
      assert BufOk(lay, s, s.bufs[j]);
      assert BufOk(lay, s, s.bufs[t]);
      if j != t && s.bufs[j].blockno >= 0 {
        assert s.bufs[j].blockno != s.bufs[t].blockno;
      }
    }
  }

  lemma PinsKept(s: Sys, s': Sys, t: nat, k: int)
    requires PinnedFrom(s, k) && s'.lh == s.lh && t < |s.bufs| == |s'.bufs|
    requires forall j :: 0 <= j < |s.bufs| && j != t ==> s'.bufs[j] == s.bufs[j]
    requires forall j :: 0 <= j < |s.lh| && k <= j ==> s.lh[j] != s.bufs[t].blockno
    ensures PinnedFrom(s', k)
  {
    forall j | 0 <= j < |s.lh| && k <= j ensures Pinned(s', s.lh[j]) {
      assert Pinned(s, s.lh[j]);
      var m :| 0 <= m < |s.bufs| && s.bufs[m].blockno == s.lh[j] && s.bufs[m].valid && s.bufs[m].dirty;
      assert s'.bufs[m] == s.bufs[m];
    }
  }

  /** Equal contents block by block make equal specification states. */
  lemma AbsFrom(lay: Layout, s: Sys, s': Sys)
    requires GoodDisk(lay, s.disk) && GoodDisk(lay, s'.disk) && |s'.disk| == |s.disk| && s'.ops == s.ops
    requires forall b :: 0 <= b < |s.disk| && !InLog(lay, b)
               ==> View(lay, s', b) == View(lay, s, b)
                   && RecoverView(lay, s'.disk, b) == RecoverView(lay, s.disk, b)
    ensures Abs(lay, s') == Abs(lay, s)
  {
  }

  /** Changing a buffer of some other block, and the disk elsewhere, keeps the log copies right. */
  lemma CopiedKept(lay: Layout, s: Sys, s': Sys, t: nat, hi: nat)
    requires hi <= |s.lh| && s'.lh == s.lh && lay.start + |s.lh| < |s.disk| == |s'.disk|
    requires t < |s.bufs| == |s'.bufs|
    requires forall j :: 0 <= j < |s.bufs| && j != t ==> s'.bufs[j] == s.bufs[j]
    requires SameShown(s.bufs[t], s'.bufs[t]) || s'.bufs[t].blockno !in s.lh[..hi]
    requires forall b :: lay.start < b <= lay.start + hi ==> s'.disk[b] == s.disk[b]
    requires Copied(lay, s, 0, hi)
    ensures Copied(lay, s', 0, hi)
  {
    forall i, j | 0 <= i < |s'.bufs| && 0 <= j < hi && s'.bufs[i].blockno == s'.lh[j] && s'.bufs[i].valid
      ensures s'.bufs[i].data == s'.disk[lay.start + 1 + j]
    {
      if i == t {
        assert s.lh[..hi][j] == s.lh[j];
      }
      assert s.bufs[i].data == s.disk[lay.start + 1 + j];
    }
  }

  lemma CopiedMore(lay: Layout, s: Sys, k: nat, f: nat)
    requires k < |s.lh| && lay.start + |s.lh| < |s.disk| && Unique(s.bufs) && f < |s.bufs|
    requires s.bufs[f].blockno == s.lh[k] >= 0 && s.bufs[f].data == s.disk[lay.start + 1 + k]
    requires Copied(lay, s, 0, k)
    ensures Copied(lay, s, 0, k + 1)
  {
  }

  lemma CommitLogInv(lay: Layout, s: Sys, st: Step)
    requires Inv(lay, s) && Enabled(lay, s, st) && st.CommitLog?
    ensures Inv(lay, Apply(lay, s, st))
  {
    var k := s.phase.i;
    var s' := Apply(lay, s, st);
    assert forall j :: 0 <= j < |s.bufs| ==> BufOk(lay, s, s.bufs[j]);
    LogBufOk(lay, s, s', st.t, s.bufs[st.f].data);
    assert Listed(lay, s'.disk) == [];
    assert !InLog(lay, s.lh[k]) && st.t != st.f;
    PinsKept(s, s', st.t, 0);
    CopiedKept(lay, s, s', st.t, k);
    CopiedMore(lay, s', k, st.f);
  }

  lemma CommitLogStep(lay: Layout, s: Sys, st: Step)
    requires Inv(lay, s) && Enabled(lay, s, st) && st.CommitLog?
    ensures StepOk(lay, s, st)
  {
    var s' := Apply(lay, s, st);
    CommitLogInv(lay, s, st);
    LogBufView(lay, s, s', st.t);
    AbsFrom(lay, s, s');
  }

  lemma CommitHeadInv(lay: Layout, s: Sys, st: Step)
    requires Inv(lay, s) && Enabled(lay, s, st) && st.CommitHead?
    ensures Inv(lay, Apply(lay, s, st))
  {
    var h := st.h;
    var s' := Apply(lay, s, st);
    CommitHeadBufs(lay, s, st);
    PinsKept(s, s', h, 0);
    assert Listed(lay, s'.disk) == s.lh;
    CopiedKept(lay, s, s', h, |s.lh|);
    hide BufsOk, PinnedFrom, Copied;
  }

  lemma CommitHeadBufs(lay: Layout, s: Sys, st: Step)
    requires Inv(lay, s) && Enabled(lay, s, st) && st.CommitHead?
    ensures BufsOk(lay, Apply(lay, s, st))
  {
    var s' := Apply(lay, s, st);
    assert forall j :: 0 <= j < |s.bufs| ==> BufOk(lay, s, s.bufs[j]);
    hide PhaseOk;
    LogBufOk(lay, s, s', st.h, s'.bufs[st.h].data);
  }

  /** Once the log holds the whole transaction, the header write makes the readers' view durable. */
  lemma CommitHeadView(lay: Layout, s: Sys, d': Disk, b: int)
    requires Inv(lay, s) && s.phase == Writing(|s.lh|)
    requires GoodDisk(lay, d') && |d'| == |s.disk| && Listed(lay, d') == s.lh
    requires d' == s.disk[lay.start := d'[lay.start]]
    requires 0 <= b < |s.disk| && !InLog(lay, b)
    ensures RecoverView(lay, d', b) == CacheView(s, b)
  {
    if j :| 0 <= j < |s.lh| && s.lh[j] == b {
      ViewListed(lay, d', j);
      assert Pinned(s, b);
      var m :| 0 <= m < |s.bufs| && s.bufs[m].blockno == b && s.bufs[m].valid && s.bufs[m].dirty;
      CachedIs(s, m);
    } else {
      if m :| 0 <= m < |s.bufs| && s.bufs[m].blockno == b && s.bufs[m].valid {
        assert BufOk(lay, s, s.bufs[m]);
        CachedIs(s, m);
      }
    }
  }

  lemma CommitHeadStep(lay: Layout, s: Sys, st: Step)
    requires Inv(lay, s) && Enabled(lay, s, st) && st.CommitHead?
    ensures StepOk(lay, s, st)
  {
    var s' := Apply(lay, s, st);
    CommitHeadInv(lay, s, st);
    LogBufView(lay, s, s', st.h);
    forall b | 0 <= b < |s.disk| && !InLog(lay, b)
      ensures RecoverView(lay, s'.disk, b) == View(lay, s, b) == View(lay, s', b)
    {
      CommitHeadView(lay, s, s'.disk, b);
    }
    AbsCommit(lay, s, s');
  }

  lemma AbsCommit(lay: Layout, s: Sys, s': Sys)
    requires GoodDisk(lay, s.disk) && GoodDisk(lay, s'.disk) && |s'.disk| == |s.disk| && s'.ops == s.ops
    requires forall b :: 0 <= b < |s.disk| && !InLog(lay, b)
               ==> RecoverView(lay, s'.disk, b) == View(lay, s, b) && View(lay, s', b) == View(lay, s, b)
    ensures Abs(lay, s') == Abs(lay, s).(durable := Abs(lay, s).view)
  {
    hide RecoverView, View;
  }

  lemma InstallBufs(lay: Layout, s: Sys, st: Step)
    requires Inv(lay, s) && Enabled(lay, s, st) && st.Install?
    ensures BufsOk(lay, Apply(lay, s, st))
  {
    var s' := Apply(lay, s, st);
    assert BufOk(lay, s, s.bufs[st.l]);
    forall j | 0 <= j < |s'.bufs| ensures BufOk(lay, s', s'.bufs[j]) {
      assert BufOk(lay, s, s.bufs[j]);
      if j != st.d && s.bufs[j].blockno >= 0 {
        assert s.bufs[j].blockno != s.lh[s.phase.i];
      }
    }
  }

  /** Installing the next listed block copies it home from the log. */
  lemma InstallDisk(lay: Layout, s: Sys, st: Step)
    requires Inv(lay, s) && Enabled(lay, s, st) && st.Install?
    ensures GoodDisk(lay, Apply(lay, s, st).disk) && |Apply(lay, s, st).disk| == |s.disk|
    ensures Listed(lay, Apply(lay, s, st).disk) == s.lh == Listed(lay, s.disk)
    ensures HomeUpTo(lay, Apply(lay, s, st), s.phase.i + 1)
    ensures HomeOnly(lay, s.disk, Apply(lay, s, st).disk)
  {
    hide *;
    InstallData(lay, s, st);
    HomeCopied(lay, s.disk, s.phase.i);
    HomeUpToNext(lay, s, Apply(lay, s, st));
  }

  lemma InstallData(lay: Layout, s: Sys, st: Step)
    requires Inv(lay, s) && Enabled(lay, s, st) && st.Install?
    ensures GoodDisk(lay, s.disk) && Listed(lay, s.disk) == s.lh
    ensures s.phase.Installing? && s.phase.i < |s.lh| && 0 <= s.lh[s.phase.i] < |s.disk|
    ensures lay.start + |s.lh| < |s.disk| && HomeUpTo(lay, s, s.phase.i)
    ensures Apply(lay, s, st).disk == s.disk[s.lh[s.phase.i] := s.disk[lay.start + 1 + s.phase.i]]
    ensures Apply(lay, s, st).lh == s.lh && Apply(lay, s, st).phase == Installing(s.phase.i + 1, s.phase.recovering)
    ensures Apply(lay, s, st).ops == s.ops
  {
    assert BufOk(lay, s, s.bufs[st.l]);
  }

  lemma HomeUpToNext(lay: Layout, s: Sys, s': Sys)
    requires GoodDisk(lay, s.disk) && Listed(lay, s.disk) == s.lh == s'.lh && lay.start + |s.lh| < |s.disk|
    requires s.phase.Installing? && s.phase.i < |s.lh| && 0 <= s.lh[s.phase.i] < |s.disk|
    requires HomeUpTo(lay, s, s.phase.i)
    requires s'.disk == s.disk[s.lh[s.phase.i] := s.disk[lay.start + 1 + s.phase.i]]
    ensures HomeUpTo(lay, s', s.phase.i + 1)
  {
    HomeCopied(lay, s.disk, s.phase.i);
    hide GoodDisk, Listed;
    forall j | 0 <= j < s.phase.i ensures s'.disk[s.lh[j]] == s'.disk[lay.start + 1 + j] {
      assert s.disk[s.lh[j]] == s.disk[lay.start + 1 + j];
    }
  }

  /** The disks differ at most in blocks that the header lists. */
  ghost predicate HomeOnly(lay: Layout, d: Disk, e: Disk)
    requires GoodDisk(lay, d)
  {
    && |e| == |d|
    && (forall b :: 0 <= b < |d| && InLog(lay, b) ==> e[b] == d[b])
    && (forall b :: 0 <= b < |d| ==> e[b] == d[b] || b in Listed(lay, d))
  }

  lemma HomeCopied(lay: Layout, d: Disk, k: nat)
    requires GoodDisk(lay, d) && k < |Listed(lay, d)|
    ensures 0 <= Listed(lay, d)[k] < |d| && lay.start + 1 + k < |d|
    ensures var e := d[Listed(lay, d)[k] := d[lay.start + 1 + k]];
            HomeOnly(lay, d, e) && GoodDisk(lay, e) && Listed(lay, e) == Listed(lay, d)
            && e[Listed(lay, d)[k]] == e[lay.start + 1 + k]
            && forall j :: 0 <= j < |Listed(lay, d)| && j != k ==> e[Listed(lay, d)[j]] == d[Listed(lay, d)[j]]
  {
    var list := Listed(lay, d);
    var e := d[list[k] := d[lay.start + 1 + k]];
    assert e[lay.start] == d[lay.start];
  }

  lemma InstallInv(lay: Layout, s: Sys, st: Step)
    requires Inv(lay, s) && Enabled(lay, s, st) && st.Install?
    ensures Inv(lay, Apply(lay, s, st))
  {
    hide Apply, Enabled, GoodDisk, BufsOk, Copied, PinnedFrom, HomeUpTo, Cleaned, Listed, HomeOnly;
    InstallData(lay, s, st);
    InstallBufs(lay, s, st);
    InstallDisk(lay, s, st);
    InstallCleaned(lay, s, st);
    if !s.phase.recovering {
      InstallPins(lay, s, st);
    }
  }

  lemma InstallCleaned(lay: Layout, s: Sys, st: Step)
    requires Inv(lay, s) && Enabled(lay, s, st) && st.Install? && BufsOk(lay, Apply(lay, s, st))
    ensures Cleaned(Apply(lay, s, st), s.phase.i + 1)
  {
    InstallCleans(s, Apply(lay, s, st), st.d, s.phase.i);
  }

  lemma InstallCleans(s: Sys, s': Sys, d: nat, k: nat)
    requires k < |s.lh| && s'.lh == s.lh && d < |s.bufs| == |s'.bufs| && Unique(s'.bufs) && Cleaned(s, k)
    requires s'.bufs[d].blockno == s.lh[k] >= 0 && !s'.bufs[d].dirty
    requires forall j :: 0 <= j < |s.bufs| && j != d ==> s'.bufs[j] == s.bufs[j]
    ensures Cleaned(s', k + 1)
  {
    forall i, j | 0 <= i < |s'.bufs| && 0 <= j < k + 1 && s'.bufs[i].blockno == s'.lh[j] ensures !s'.bufs[i].dirty {
      if j == k {
        assert i == d;
      }
    }
  }

  lemma InstallPins(lay: Layout, s: Sys, st: Step)
    requires Inv(lay, s) && Enabled(lay, s, st) && st.Install? && !s.phase.recovering
    ensures PinnedFrom(Apply(lay, s, st), s.phase.i + 1)
    ensures lay.start + |s.lh| < |s.disk| && Copied(lay, Apply(lay, s, st), 0, |s.lh|)
  {
    var s' := Apply(lay, s, st);
    assert BufOk(lay, s, s.bufs[st.l]);
    assert s'.bufs[st.d].data == s.bufs[st.d].data;
    PinsKept(s, s', st.d, s.phase.i + 1);
    CopiedKept(lay, s, s', st.d, |s.lh|);
  }

  lemma InstallStep(lay: Layout, s: Sys, st: Step)
    requires Inv(lay, s) && Enabled(lay, s, st) && st.Install?
    ensures StepOk(lay, s, st)
  {
    hide Inv, Apply, Enabled, GoodDisk, Listed, RecoverView, CacheView, Abs, HomeOnly;
    var s' := Apply(lay, s, st);
    InstallInv(lay, s, st);
    InstallData(lay, s, st);
    InstallDisk(lay, s, st);
    ListedSame(lay, s.disk, s'.disk);
    if !s.phase.recovering {
      InstallView(lay, s, st);
    }
    AbsFrom(lay, s, s');
  }

  /** Two disks that list the same blocks, log the same contents and differ at most in listed blocks
      recover to the same contents. */
  lemma ListedSame(lay: Layout, d: Disk, e: Disk)
    requires GoodDisk(lay, d) && GoodDisk(lay, e) && Listed(lay, e) == Listed(lay, d) && HomeOnly(lay, d, e)
    ensures forall b :: 0 <= b < |d| && !InLog(lay, b) ==> RecoverView(lay, e, b) == RecoverView(lay, d, b)
  {
    forall b | 0 <= b < |d| && !InLog(lay, b) ensures RecoverView(lay, e, b) == RecoverView(lay, d, b) {
      if j :| 0 <= j < |Listed(lay, d)| && Listed(lay, d)[j] == b {
        ViewListed(lay, d, j);
        ViewListed(lay, e, j);
      }
    }
  }

  lemma InstallView(lay: Layout, s: Sys, st: Step)
    requires Inv(lay, s) && Enabled(lay, s, st) && st.Install? && !s.phase.recovering
    requires Inv(lay, Apply(lay, s, st))
    ensures forall b :: 0 <= b < |s.disk| ==> CacheView(Apply(lay, s, st), b) == CacheView(s, b)
  {
    var s' := Apply(lay, s, st);
    assert BufOk(lay, s, s.bufs[st.l]);
    assert s'.bufs[st.d].data == s.bufs[st.d].data;
    hide Inv;
    forall b | 0 <= b < |s.disk| ensures CacheView(s', b) == CacheView(s, b) {
      if m :| 0 <= m < |s.bufs| && s.bufs[m].blockno == b && s.bufs[m].valid {
        CachedIs(s, m);
        CachedIs(s', m);
      }
    }
  }

  lemma ClearInv(lay: Layout, s: Sys, st: Step)
    requires Inv(lay, s) && Enabled(lay, s, st) && st.Clear?
    ensures Inv(lay, Apply(lay, s, st))
    ensures forall j :: 0 <= j < |s.bufs| ==> !Apply(lay, s, st).bufs[j].dirty
  {
    var s' := Apply(lay, s, st);
    assert forall j :: 0 <= j < |s.bufs| ==> BufOk(lay, s, s.bufs[j]);
    forall j | 0 <= j < |s.bufs| ensures !s.bufs[j].dirty {
      assert BufOk(lay, s, s.bufs[j]);
    }
    LogBufOk(lay, s, s', st.h, s'.bufs[st.h].data);
    assert Listed(lay, s'.disk) == [];
  }

  lemma ClearStep(lay: Layout, s: Sys, st: Step)
    requires Inv(lay, s) && Enabled(lay, s, st) && st.Clear?
    ensures StepOk(lay, s, st)
  {
    var s' := Apply(lay, s, st);
    ClearInv(lay, s, st);
    LogBufView(lay, s, s', st.h);
    hide BufsOk, HeaderBlock, CacheView;
    forall b | 0 <= b < |s.disk| && !InLog(lay, b)
      ensures RecoverView(lay, s'.disk, b) == RecoverView(lay, s.disk, b)
      ensures View(lay, s', b) == View(lay, s, b)
    {
      if j :| 0 <= j < |s.lh| && s.lh[j] == b {
        ViewListed(lay, s.disk, j);
      }
      CleanView(lay, s', b);
    }
    AbsFrom(lay, s, s');
  }

  /** With nothing dirty and no operation open, readers see the disk. */
  lemma CleanView(lay: Layout, s: Sys, b: int)
    requires BufsOk(lay, s) && s.ops == {} && 0 <= b < |s.disk|
    requires forall j :: 0 <= j < |s.bufs| ==> !s.bufs[j].dirty
    ensures CacheView(s, b) == s.disk[b]
  {
    if m :| 0 <= m < |s.bufs| && s.bufs[m].blockno == b && s.bufs[m].valid {
      CachedIs(s, m);
      assert BufOk(lay, s, s.bufs[m]);
    }
  }

  lemma CrashStep(lay: Layout, s: Sys, st: Step)
    requires Inv(lay, s) && Enabled(lay, s, st) && st.Crash?
    ensures StepOk(lay, s, st)
  {
    var s' := Apply(lay, s, st);
    CrashAbs(lay, s, s');
    hide Abs;
  }

  lemma CrashAbs(lay: Layout, s: Sys, s': Sys)
    requires GoodDisk(lay, s.disk) && s'.disk == s.disk && s'.phase == Booting
    ensures Abs(lay, s').view == Abs(lay, s).durable == Abs(lay, s').durable
  {
    hide RecoverView, CacheView, GoodDisk;
  }

  lemma BootStep(lay: Layout, s: Sys, st: Step)
    requires Inv(lay, s) && Enabled(lay, s, st) && st.Boot?
    ensures StepOk(lay, s, st)
  {
    var s' := Apply(lay, s, st);
    assert BufOk(lay, s, s.bufs[st.h]);
    assert s'.lh == Listed(lay, s.disk);
    forall j | 0 <= j < |s.bufs| ensures BufOk(lay, s', s'.bufs[j]) {
      assert BufOk(lay, s, s.bufs[j]);
    }
    AbsFrom(lay, s, s');
  }

  /** Every step of the machine keeps the invariant and is a step of the specification. */
  lemma Refines(lay: Layout, s: Sys, st: Step)
    requires Inv(lay, s) && Enabled(lay, s, st)
    ensures Inv(lay, Apply(lay, s, st))
    ensures SpecNext(Abs(lay, s), Abs(lay, Apply(lay, s, st)), SpecOf(s, st))
  {
    match st
    case BeginOp(_) => OpStep(lay, s, st);
    case EndOp(_) => OpStep(lay, s, st);
    case Hit(_, _) => OwnerStep(lay, s, st);
    case Miss(_, _, _) => MissStep(lay, s, st);
    case Fetch(_) => FetchStep(lay, s, st);
    case Modify(_, _, _) => ModifyStep(lay, s, st);
    case LogWrite(_, _) => LogWriteStep(lay, s, st);
    case Release(_, _) => OwnerStep(lay, s, st);
    case CommitLog(_, _) => CommitLogStep(lay, s, st);
    case CommitHead(_) => CommitHeadStep(lay, s, st);
    case Install(_, _) => InstallStep(lay, s, st);
    case Clear(_) => ClearStep(lay, s, st);
    case Crash => CrashStep(lay, s, st);
    case Boot(_) => BootStep(lay, s, st);
  }

  lemma InitOk(lay: Layout, s: Sys)
    requires Init(lay, s)
    ensures Inv(lay, s) && SpecInit(Abs(lay, s))
  {
    assert Abs(lay, s).view == Abs(lay, s).durable;
  }

  // ---- Whole runs ----

  /** A run: states, and the steps between them. */
  ghost predicate Run(lay: Layout, ss: seq<Sys>, sts: seq<Step>) {
    && |ss| == |sts| + 1
    && Init(lay, ss[0])
    && forall k :: 0 <= k < |sts| ==> Enabled(lay, ss[k], sts[k]) && ss[k + 1] == Apply(lay, ss[k], sts[k])
  }

  lemma {:induction false} RunInv(lay: Layout, ss: seq<Sys>, sts: seq<Step>, k: nat)
    requires Run(lay, ss, sts) && k < |ss|
    ensures Inv(lay, ss[k])
  {
    if k == 0 {
      InitOk(lay, ss[0]);
    } else {
      RunInv(lay, ss, sts, k - 1);
      Refines(lay, ss[k - 1], sts[k - 1]);
    }
  }

  /** In any state of any run, at most one buffer caches a block, and whatever a process finds in
      a buffer of a home block is the block's latest contents. */
  lemma ReadersSeeLatest(lay: Layout, ss: seq<Sys>, sts: seq<Step>, k: nat, i: nat)
    requires Run(lay, ss, sts) && k < |ss| && i < |ss[k].bufs|
    requires ss[k].bufs[i].valid && ss[k].bufs[i].owner.Some? && ss[k].bufs[i].owner.value.Proc?
    requires !InLog(lay, ss[k].bufs[i].blockno) && !Recovering(ss[k].phase)
    ensures GoodDisk(lay, ss[k].disk)
    ensures ss[k].bufs[i].blockno in Abs(lay, ss[k]).view
    ensures ss[k].bufs[i].data == Abs(lay, ss[k]).view[ss[k].bufs[i].blockno]
    ensures forall j :: 0 <= j < |ss[k].bufs| && j != i ==> ss[k].bufs[j].blockno != ss[k].bufs[i].blockno
  {
    RunInv(lay, ss, sts, k);
    assert BufOk(lay, ss[k], ss[k].bufs[i]);
    ReadsView(lay, ss[k], i);
  }

  /** A buffer after a step: it has an owner from bget to brelse, and its data, once valid, changes only by
      its owner's hand. */
  ghost predicate KeptAsItShould(st: Step, i: nat, b: Buf, b': Buf) {
    && b'.owner == (if (st.Hit? || st.Miss?) && st.i == i then Some(st.w)
                    else if st.Crash? || (st.Release? && st.i == i) then None else b.owner)
    && b'.blockno == (if st.Miss? && st.i == i then st.b else if st.Crash? then -1 else b.blockno)
    && (b'.valid <==> !st.Crash? && ((st.Fetch? && st.i == i) || (b.valid && !(st.Miss? && st.i == i))))
    && (b.valid && b'.valid && b'.data != b.data ==>
          b.owner == Some(Committer) || (st.Modify? && st.i == i && b.owner == Some(Proc(st.p))))
    && (st.Modify? && st.i == i ==> b'.data == st.data)
  }

  lemma BufferLaw(lay: Layout, s: Sys, st: Step, i: nat)
    requires Inv(lay, s) && Enabled(lay, s, st) && i < |s.bufs|
    ensures |Apply(lay, s, st).bufs| == |s.bufs| && KeptAsItShould(st, i, s.bufs[i], Apply(lay, s, st).bufs[i])
  {
    hide Inv, HeaderBlock, Absorb, InLog;
  }

  /** In every run: a buffer that a process has read stays that process's, and as it left it, until its own
      next step on the buffer or a power failure. */
  lemma {:induction false} HolderAlone(lay: Layout, ss: seq<Sys>, sts: seq<Step>, k: nat, j: nat, i: nat, p: nat)
    requires Run(lay, ss, sts) && k <= j < |ss| && i < |ss[k].bufs|
    requires ss[k].bufs[i].owner == Some(Proc(p)) && ss[k].bufs[i].valid
    requires forall m :: k <= m < j ==> !sts[m].Crash? && sts[m] != Release(Proc(p), i)
    requires forall m :: k <= m < j ==> !(sts[m].Modify? && sts[m].p == p && sts[m].i == i)
    ensures i < |ss[j].bufs| && ss[j].bufs[i].owner == Some(Proc(p)) && ss[j].bufs[i].valid
    ensures ss[j].bufs[i].blockno == ss[k].bufs[i].blockno && ss[j].bufs[i].data == ss[k].bufs[i].data
  {
    hide Apply, Inv, Init;
    if k < j {
      HolderAlone(lay, ss, sts, k, j - 1, i, p);
      RunInv(lay, ss, sts, j - 1);
      BufferLaw(lay, ss[j - 1], sts[j - 1], i);
    }
  }

  /** A home block changes on the disk only when the committed header already lists it. */
  lemma NoEarlyHomeWrite(lay: Layout, ss: seq<Sys>, sts: seq<Step>, k: nat, b: nat)
    requires Run(lay, ss, sts) && k < |sts| && b < |ss[k].disk| && !InLog(lay, b)
    requires |ss[k + 1].disk| == |ss[k].disk| && ss[k + 1].disk[b] != ss[k].disk[b]
    ensures GoodDisk(lay, ss[k].disk) && b in Listed(lay, ss[k].disk)
  {
    RunInv(lay, ss, sts, k);
  }

  /** Wherever a run is cut by a power failure, what recovery restores is exactly what readers saw
      at some earlier moment at which no operation was in progress: never part of an operation. */
  lemma {:induction false} CrashAtAnyPoint(lay: Layout, ss: seq<Sys>, sts: seq<Step>, k: nat)
    requires Run(lay, ss, sts) && k < |ss|
    ensures exists c :: 0 <= c <= k && Restores(lay, ss[k], ss[c])
  {
    hide Apply, Enabled, BufsOk, PhaseOk, GoodList, GoodDisk;
    RunInv(lay, ss, sts, k);
    if k == 0 {
      InitOk(lay, ss[0]);
      assert Restores(lay, ss[0], ss[0]);
    } else {
      CrashAtAnyPoint(lay, ss, sts, k - 1);
      var c :| 0 <= c <= k - 1 && Restores(lay, ss[k - 1], ss[c]);
      RunInv(lay, ss, sts, k - 1);
      hide Inv, Abs, Restores;
      RestoresStep(lay, ss[k - 1], sts[k - 1], ss[c]);
      assert Restores(lay, ss[k], ss[k - 1]) || Restores(lay, ss[k], ss[c]);
    }
  }

  /** Recovery in state s would restore what readers saw in state t, when nothing was in progress. */
  ghost predicate Restores(lay: Layout, s: Sys, t: Sys) {
    GoodDisk(lay, s.disk) && GoodDisk(lay, t.disk) && t.ops == {} && Abs(lay, s).durable == Abs(lay, t).view
  }

  /** Only the header write of a commit changes what recovery restores, and it takes what readers see. */
  lemma DurableStep(lay: Layout, s: Sys, st: Step)
    requires Inv(lay, s) && Enabled(lay, s, st)
    ensures GoodDisk(lay, Apply(lay, s, st).disk)
    ensures Abs(lay, Apply(lay, s, st)).durable == if st.CommitHead? then Abs(lay, s).view else Abs(lay, s).durable
    ensures st.CommitHead? ==> s.ops == {}
  {
    hide Apply, Enabled, BufsOk, PhaseOk, GoodList, GoodDisk;
    Refines(lay, s, st);
    assert Inv(lay, Apply(lay, s, st));
  }

  /** Between transactions what readers see is what recovery would restore. */
  lemma QuietDurable(lay: Layout, s: Sys)
    requires Inv(lay, s) && s.phase.Idle? && s.ops == {}
    ensures Restores(lay, s, s)
  {
    forall j | 0 <= j < |s.bufs| ensures !s.bufs[j].dirty {
      assert BufOk(lay, s, s.bufs[j]);
    }
    forall b | 0 <= b < |s.disk| && !InLog(lay, b) ensures View(lay, s, b) == RecoverView(lay, s.disk, b) {
      CleanView(lay, s, b);
    }
    assert Abs(lay, s).durable == Abs(lay, s).view;
  }

  /** Durability: once the last end_op has returned, a power failure at any later point restores what
      readers saw then or later, never anything older. */
  lemma {:induction false} EndedSurvives(lay: Layout, ss: seq<Sys>, sts: seq<Step>, k: nat, j: nat)
    requires Run(lay, ss, sts) && k <= j < |ss| && ss[k].phase.Idle? && ss[k].ops == {}
    ensures exists c :: k <= c <= j && Restores(lay, ss[j], ss[c])
  {
    hide Apply, Enabled, Inv, Restores;
    if j == k {
      RunInv(lay, ss, sts, k);
      QuietDurable(lay, ss[k]);
    } else {
      EndedSurvives(lay, ss, sts, k, j - 1);
      var c :| k <= c <= j - 1 && Restores(lay, ss[j - 1], ss[c]);
      RunInv(lay, ss, sts, j - 1);
      RestoresStep(lay, ss[j - 1], sts[j - 1], ss[c]);
      assert Restores(lay, ss[j], ss[j - 1]) || Restores(lay, ss[j], ss[c]);
    }
  }

  lemma RestoresStep(lay: Layout, s: Sys, st: Step, t: Sys)
    requires Inv(lay, s) && Enabled(lay, s, st) && Restores(lay, s, t)
    ensures Restores(lay, Apply(lay, s, st), s) || Restores(lay, Apply(lay, s, st), t)
  {
    hide Apply, Enabled, BufsOk, PhaseOk, GoodList, GoodDisk, Abs;
    DurableStep(lay, s, st);
  }
}
