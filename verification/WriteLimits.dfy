/** How many blocks one writei logs, against what begin_op reserves for an operation: the worst case over
    all states of a file system, and runs that reach it. */
module WriteLimits {
  import opened Common
  import opened BlockBitmap
  import opened FileBlocks
  import GroupCommit

  const FSSIZE: nat := 1000
  const NINODES: nat := 200
  const INODESTART: nat := 2 + LOGSIZE

  /** What is on the disk. */
  datatype Disk = Disk(nmeta: nat, inodestart: nat, bmapstart: nat, bits: seq<bool>, blocks: seq<Block>,
                       inodes: seq<Inode>)

  ghost predicate Owned(d: Disk) {
    exists owner :: OwnerOk(d.nmeta, d.bits, d.blocks, d.inodes, owner)
  }

  /** Laid out as by mkfs, every block with one owner or free, every file with the blocks of its size. */
  ghost predicate Sound(d: Disk) {
    && LaidOut(d.nmeta, d.inodestart, d.bmapstart, |d.blocks|, |d.inodes|) && |d.bits| == |d.blocks|
    && Owned(d)
    && OthersOk(d.blocks, d.inodes, d.inodes, |d.inodes|)
  }

  /** A write of len bytes at off to file n that succeeds. */
  ghost predicate Writable(d: Disk, n: nat, off: nat, len: nat) {
    && Sound(d) && n < |d.inodes| && off <= d.inodes[n].size && off + len <= MAXFILE * BSIZE
    && NewSlots(d.inodes[n].size, off + len) <= |FreeOf(d.bits)|
  }

  ghost function Cost(d: Disk, n: nat, off: nat, len: nat): nat
    requires n < |d.inodes|
  {
    WriteCost(d.bmapstart, d.bits, d.inodes[n].size, off, len)
  }

  /** On disks of at most `most` blocks, no write of at most k bytes logs more than cap blocks. */
  ghost predicate Within(k: nat, cap: nat, most: nat) {
    forall d, n: nat, off: nat, len: nat ::
      Writable(d, n, off, len) && len <= k && |d.bits| <= most ==> Cost(d, n, off, len) <= cap
  }

  // ---- Ownership, in parts ----

  ghost predicate Shaped(d: Disk) {
    && 0 < d.nmeta && |d.bits| == |d.blocks| < UINT
    && (forall n :: 0 <= n < |d.inodes| ==> |d.inodes[n].addrs| == NDIRECT + 1)
  }

  /** Every block a slot refers to is owned by it. */
  ghost predicate RefsOwned(d: Disk, owner: map<nat, (nat, nat)>)
    requires Shaped(d)
  {
    forall n, k :: 0 <= n < |d.inodes| && 0 <= k < SLOTS && Ref(d.blocks, d.inodes[n], k) != 0
      ==> Ref(d.blocks, d.inodes[n], k) in owner && owner[Ref(d.blocks, d.inodes[n], k)] == (n, k)
  }

  /** Every owned block is in its slot. */
  ghost predicate OwnersRefer(d: Disk, owner: map<nat, (nat, nat)>)
    requires Shaped(d)
  {
    forall b :: b in owner ==> d.nmeta <= b < |d.blocks| && owner[b].0 < |d.inodes| && owner[b].1 < SLOTS
                               && Ref(d.blocks, d.inodes[owner[b].0], owner[b].1) == b
  }

  ghost predicate BitsRight(d: Disk, owner: map<nat, (nat, nat)>) {
    forall b :: 0 <= b < |d.bits| ==> d.bits[b] == (b < d.nmeta || b in owner)
  }

  lemma OwnedBy(d: Disk, owner: map<nat, (nat, nat)>)
    requires Shaped(d) && RefsOwned(d, owner) && OwnersRefer(d, owner) && BitsRight(d, owner)
    ensures Owned(d)
  {
    hide Ref;
    assert OwnerOk(d.nmeta, d.bits, d.blocks, d.inodes, owner);
  }

  // ---- From a disk to a mounted file system ----

  method Mount(d: Disk, n: nat) returns (fs: FileSystem)
    requires Sound(d) && n < |d.inodes|
    ensures fresh(fs) && fresh(fs.bm) && fs.Valid(n) && fs.logged == {}
    ensures fs.nmeta == d.nmeta && fs.inodestart == d.inodestart && fs.bmapstart == d.bmapstart
    ensures fs.blocks == d.blocks && fs.inodes == d.inodes && fs.bm.bits == d.bits
  {
    ghost var owner :| OwnerOk(d.nmeta, d.bits, d.blocks, d.inodes, owner);
    PackedCovers(d.bits);
    var bm := new Bitmap(Packed(d.bits), |d.bits|);
    forall b | 0 <= b < |d.bits| ensures bm.bits[b] == d.bits[b] {
      PackedTest(d.bits, b);
      assert bm.bits[b] == Test(bm.bytes, b);
    }
    assert bm.bits == d.bits;
    fs := new FileSystem(bm, d.nmeta, d.inodestart, d.bmapstart, d.blocks, d.inodes, owner);
  }

  lemma PackedCovers(bits: seq<bool>)
    ensures Covers(Packed(bits), |bits|)
  {
  }

  /** A write to file n of a sound disk succeeds if there are blocks for it, and logs what it costs. */
  method WriteOnce(d: Disk, n: nat, off: nat, src: seq<Byte>) returns (fs: FileSystem)
    requires Writable(d, n, off, |src|)
    ensures fresh(fs) && fs.Valid(n) && |fs.logged| == Cost(d, n, off, |src|)
  {
    hide OwnerOk, OthersOk, LaidOut, FreeOf, WriteCost, NewSlots;
    fs := Mount(d, n);
    var r := fs.WriteI(n, off, src);
  }

  // ---- A disk with one file of direct blocks ----

  /** As mkfs makes it, with nblocks blocks and ninodes inodes; file 0 has `size` bytes in the first blocks
      behind the metadata, and the other files are empty. */
  function Simple(nblocks: nat, ninodes: nat, size: nat): Disk {
    var bmapstart := INODESTART + ninodes / IPB + 1;
    var nmeta := bmapstart + nblocks / BPB + 1;
    Disk(nmeta, INODESTART, bmapstart, seq(nblocks, b => b < nmeta + BlocksFor(size)), seq(nblocks, b => Zero()),
         seq(ninodes, n => SimpleInode(nmeta, n, size)))
  }

  function SimpleInode(nmeta: nat, n: int, size: nat): Inode {
    if n == 0 then Inode(2, 1, size, seq(NDIRECT + 1, k => if k < BlocksFor(size) then nmeta + k else 0))
    else Inode(0, 0, 0, seq(NDIRECT + 1, k => 0))
  }

  function SimpleOwner(nmeta: nat, b: nat): (nat, nat) {
    (0, if b < nmeta then 0 else b - nmeta)
  }

  ghost function SimpleOwners(nmeta: nat, nb: nat): map<nat, (nat, nat)> {
    map b | b in Numbers(nmeta, nmeta + nb) :: SimpleOwner(nmeta, b)
  }

  lemma SimpleOwnersAre(nmeta: nat, nb: nat, b: nat)
    ensures b in SimpleOwners(nmeta, nb) <==> nmeta <= b < nmeta + nb
    ensures nmeta <= b < nmeta + nb ==> SimpleOwners(nmeta, nb)[b] == (0, b - nmeta)
  {
    hide Numbers;
    assert SimpleOwners(nmeta, nb).Keys == Numbers(nmeta, nmeta + nb);
  }

  lemma SimpleOwned(nblocks: nat, ninodes: nat, size: nat)
    requires 0 < ninodes && nblocks < UINT && size <= NDIRECT * BSIZE
    requires Simple(nblocks, ninodes, size).nmeta + BlocksFor(size) <= nblocks
    ensures Owned(Simple(nblocks, ninodes, size))
  {
    var d := Simple(nblocks, ninodes, size);
    SimpleShape(d, nblocks, ninodes, size);
    hide Simple, RefsOwned, OwnersRefer, BitsRight, SimpleOwners;
    var owner := SimpleOwners(d.nmeta, BlocksFor(size));
    SimpleRefs(d, nblocks, ninodes, size, owner);
    SimpleBacks(d, nblocks, ninodes, size, owner);
    OwnedBy(d, owner);
  }

  lemma SimpleRefs(d: Disk, nblocks: nat, ninodes: nat, size: nat, owner: map<nat, (nat, nat)>)
    requires d == Simple(nblocks, ninodes, size) && Shaped(d) && size <= NDIRECT * BSIZE
    requires owner == SimpleOwners(d.nmeta, BlocksFor(size))
    ensures RefsOwned(d, owner)
  {
    SimpleShape(d, nblocks, ninodes, size);
    hide Simple, Ref, BlocksFor, SimpleOwners;
    forall n, k | 0 <= n < ninodes && 0 <= k < SLOTS && Ref(d.blocks, d.inodes[n], k) != 0
      ensures Ref(d.blocks, d.inodes[n], k) in owner && owner[Ref(d.blocks, d.inodes[n], k)] == (n, k)
    {
      SimpleRef(d, nblocks, ninodes, size, n, k);
      SimpleOwnersAre(d.nmeta, BlocksFor(size), d.nmeta + k);
    }
  }

  lemma SimpleBacks(d: Disk, nblocks: nat, ninodes: nat, size: nat, owner: map<nat, (nat, nat)>)
    requires d == Simple(nblocks, ninodes, size) && Shaped(d) && size <= NDIRECT * BSIZE && 0 < ninodes
    requires owner == SimpleOwners(d.nmeta, BlocksFor(size)) && d.nmeta + BlocksFor(size) <= nblocks
    ensures OwnersRefer(d, owner) && BitsRight(d, owner)
  {
    SimpleShape(d, nblocks, ninodes, size);
    hide Simple, Ref, BlocksFor, SimpleOwners;
    forall b | b in owner
      ensures d.nmeta <= b < nblocks && owner[b].0 < ninodes && owner[b].1 < SLOTS
              && Ref(d.blocks, d.inodes[owner[b].0], owner[b].1) == b
    {
      SimpleOwnersAre(d.nmeta, BlocksFor(size), b);
      SimpleRef(d, nblocks, ninodes, size, 0, b - d.nmeta);
    }
    forall b | 0 <= b < nblocks ensures d.bits[b] == (b < d.nmeta || b in owner) {
      SimpleOwnersAre(d.nmeta, BlocksFor(size), b);
    }
  }

  lemma SimpleShape(d: Disk, nblocks: nat, ninodes: nat, size: nat)
    requires d == Simple(nblocks, ninodes, size) && size <= NDIRECT * BSIZE
    ensures |d.bits| == |d.blocks| == nblocks && |d.inodes| == ninodes && BlocksFor(size) <= NDIRECT
    ensures nblocks < UINT ==> Shaped(d)
    ensures forall b :: 0 <= b < nblocks ==> d.bits[b] == (b < d.nmeta + BlocksFor(size))
  {
  }

  lemma SimpleRef(d: Disk, nblocks: nat, ninodes: nat, size: nat, n: nat, k: nat)
    requires d == Simple(nblocks, ninodes, size) && n < ninodes && k < SLOTS && size <= NDIRECT * BSIZE
    ensures |d.inodes[n].addrs| == NDIRECT + 1
    ensures Ref(d.blocks, d.inodes[n], k) == if n == 0 && k < BlocksFor(size) then d.nmeta + k else 0
    ensures BlocksFor(size) <= NDIRECT
  {
    assert d.inodes[n] == SimpleInode(d.nmeta, n, size);
  }

  lemma SimpleSound(nblocks: nat, ninodes: nat, size: nat)
    requires 0 < ninodes && nblocks < UINT && size <= NDIRECT * BSIZE
    requires Simple(nblocks, ninodes, size).nmeta + BlocksFor(size) <= nblocks
    ensures Sound(Simple(nblocks, ninodes, size))
  {
    var d := Simple(nblocks, ninodes, size);
    SimpleOwned(nblocks, ninodes, size);
    forall n | 0 <= n < ninodes ensures Extent(d.blocks, d.inodes[n], BlocksFor(d.inodes[n].size)) {
      assert d.inodes[n] == SimpleInode(d.nmeta, n, size);
    }
  }

  function Numbers(lo: nat, hi: nat): (r: set<nat>)
    ensures forall b: nat :: b in r <==> lo <= b < hi
    ensures |r| == if hi <= lo then 0 else hi - lo
    decreases hi
  {
    if hi <= lo then {} else Numbers(lo, hi - 1) + {hi - 1}
  }

  lemma SimpleFree(nblocks: nat, ninodes: nat, size: nat)
    requires Simple(nblocks, ninodes, size).nmeta + BlocksFor(size) <= nblocks
    ensures |FreeOf(Simple(nblocks, ninodes, size).bits)|
         == nblocks - Simple(nblocks, ninodes, size).nmeta - BlocksFor(size)
  {
    var d := Simple(nblocks, ninodes, size);
    assert FreeOf(d.bits) == Numbers(d.nmeta + BlocksFor(size), nblocks);
  }

  /** mkfs: an empty file system of nblocks blocks; every inode is valid. */
  method Format(nblocks: nat, ninodes: nat, n: nat) returns (fs: FileSystem)
    requires n < ninodes && nblocks < UINT && INODESTART + ninodes / IPB + nblocks / BPB + 2 <= nblocks
    ensures fresh(fs) && fresh(fs.bm) && fs.Valid(n) && fs.logged == {}
    ensures |fs.blocks| == nblocks && |fs.inodes| == ninodes && fs.inodes[n].size == 0
    ensures |FreeOf(fs.bm.bits)| == nblocks - fs.nmeta
  {
    SimpleSound(nblocks, ninodes, 0);
    SimpleFree(nblocks, ninodes, 0);
    fs := Mount(Simple(nblocks, ninodes, 0), n);
  }

  // ---- Disks with one bitmap block ----

  lemma OneMap(bmapstart: nat, bits: seq<bool>, m: nat)
    requires |bits| <= BPB && m <= |FreeOf(bits)|
    ensures |Maps(bmapstart, Fresh(bits, Marked(bits, m)))| == if m == 0 then 0 else 1
  {
    var news := Fresh(bits, Marked(bits, m));
    AllocsFree(bits, m);
    var maps := Maps(bmapstart, news);
    if m == 0 {
      assert maps == {};
    } else {
      assert news != {};
      var b :| b in news;
      assert b / BPB + bmapstart in maps;
      assert forall c :: c in maps ==> c == bmapstart;
      assert maps == {bmapstart};
    }
  }

  lemma SpansLong(q: nat, off: nat, len: nat)
    requires len <= q * BSIZE + 1
    ensures Spans(off, off + len) <= q + 1
  {
    if len > 0 {
      assert off + len - 1 <= off + q * BSIZE;
      assert (off + q * BSIZE) / BSIZE == off / BSIZE + q;
    }
  }

  /** The first file that is one byte short of all its direct blocks. */
  const SHORT: nat := NDIRECT * BSIZE - 1

  /** A write from the last byte of the direct blocks to the first byte of the qth block behind them. */
  lemma CrossingCost(q: nat, len: nat)
    requires q <= LOGSIZE && len == q * BSIZE + 2
    ensures Writable(Simple(FSSIZE, NINODES, SHORT), 0, SHORT, len)
    ensures Cost(Simple(FSSIZE, NINODES, SHORT), 0, SHORT, len) == q + 5
  {
    var d := Simple(FSSIZE, NINODES, SHORT);
    SimpleSound(FSSIZE, NINODES, SHORT);
    SimpleFree(FSSIZE, NINODES, SHORT);
    CrossingCounts(q, len);
    assert d.inodes[0].size == SHORT;
    OneMap(d.bmapstart, d.bits, NewSlots(SHORT, SHORT + len));
  }

  lemma CrossingCounts(q: nat, len: nat)
    requires q <= LOGSIZE && len == q * BSIZE + 2
    ensures BlocksFor(SHORT) == NDIRECT && BlocksFor(Max(SHORT, SHORT + len)) == NDIRECT + 1 + q
    ensures Spans(SHORT, SHORT + len) == q + 2 && NewSlots(SHORT, SHORT + len) == q + 2
  {
  }

  /** On disks with one bitmap block, such as mkfs makes, writes of at most k bytes log at most cap blocks
      exactly if k is at most (cap - 4) * BSIZE + 1. */
  lemma SmallDiskLimit(k: nat, cap: nat)
    requires 4 <= cap <= LOGSIZE
    ensures Within(k, cap, BPB) <==> k <= (cap - 4) * BSIZE + 1
  {
    if k <= (cap - 4) * BSIZE + 1 {
      forall d, n: nat, off: nat, len: nat | Writable(d, n, off, len) && len <= k && |d.bits| <= BPB
        ensures Cost(d, n, off, len) <= cap
      {
        SpansLong(cap - 4, off, len);
        OneMap(d.bmapstart, d.bits, NewSlots(d.inodes[n].size, off + len));
      }
    } else {
      var len := (cap - 4) * BSIZE + 2;
      CrossingCost(cap - 4, len);
      assert |Simple(FSSIZE, NINODES, SHORT).bits| == FSSIZE;
      assert !Within(k, cap, BPB);
    }
  }

  /** Some bound on the blocks an operation logs holds for all writes of at most k bytes and keeps
      log_write from refusing a first-time write. */
  ghost predicate Harmless(k: nat, logsize: nat) {
    exists cap :: 4 <= cap <= LOGSIZE && Within(k, cap, BPB) && !GroupCommit.FreshWritePanics(cap, logsize)
  }

  /** With the log and the disk mkfs makes, that is so exactly for writes of at most 5 * BSIZE + 1 bytes. */
  lemma MkfsLimit(k: nat)
    ensures Harmless(k, LOGSIZE) <==> k <= 5 * BSIZE + 1
  {
    hide Within;
    if Harmless(k, LOGSIZE) {
      var cap :| 4 <= cap <= LOGSIZE && Within(k, cap, BPB) && !GroupCommit.FreshWritePanics(cap, LOGSIZE);
      GroupCommit.FreshWritesFit(cap, LOGSIZE);
      SmallDiskLimit(k, cap);
    }
    if k <= 5 * BSIZE + 1 {
      var cap: nat := 9;
      GroupCommit.FreshWritesFit(cap, LOGSIZE);
      SmallDiskLimit(k, cap);
      assert Within(k, cap, BPB);
    }
  }

  /** A chunk of filewrite at the start of an empty file, on the disk mkfs makes: 13 data blocks, the
      bitmap block, the indirect block and the inode. */
  method ChunkOverruns(src: seq<Byte>) returns (fs: FileSystem)
    requires |src| == CHUNK
    ensures fresh(fs) && fs.Valid(0) && |fs.logged| == 16 > MAXOPBLOCKS
  {
    ChunkCost();
    hide Writable, Cost;
    fs := WriteOnce(Simple(FSSIZE, NINODES, 0), 0, 0, src);
  }

  lemma ChunkCost()
    ensures Writable(Simple(FSSIZE, NINODES, 0), 0, 0, CHUNK)
    ensures Cost(Simple(FSSIZE, NINODES, 0), 0, 0, CHUNK) == 16
  {
    var d := Simple(FSSIZE, NINODES, 0);
    SimpleSound(FSSIZE, NINODES, 0);
    SimpleFree(FSSIZE, NINODES, 0);
    assert d.inodes[0].size == 0;
    assert NewSlots(0, CHUNK) == 14;
    OneMap(d.bmapstart, d.bits, 14);
  }

  // ---- Any disk ----

  /** A disk with five bitmap blocks and one free block under each of them.  File 0 has nine blocks; behind
      them come 117 files of 141 blocks each, pointer block included, and every 29th lacks its last. */
  const FULL: nat := 117
  const FULL_META: nat := 52
  const FULL_BASE: nat := 61
  const FULL_SIZE: nat := 16558

  predicate Lacking(c: nat) {
    c % 29 == 0
  }

  predicate FreeBlock(b: nat) {
    b >= FULL_BASE && (b - FULL_BASE) % SLOTS == SLOTS - 1 && Lacking((b - FULL_BASE) / SLOTS)
  }

  /** How many of its slots file m uses. */
  function SlotsUsed(m: nat): nat {
    if m == 0 then 9 else if Lacking(m - 1) then SLOTS - 1 else SLOTS
  }

  function Address(m: nat, k: nat): nat {
    if k >= SlotsUsed(m) then 0 else if m == 0 then FULL_META + k else FULL_BASE + SLOTS * (m - 1) + k
  }

  function FullOwner(b: nat): (nat, nat) {
    if b < FULL_META then (0, 0)
    else if b < FULL_BASE then (0, b - FULL_META)
    else (1 + (b - FULL_BASE) / SLOTS, (b - FULL_BASE) % SLOTS)
  }

  function FileSize(m: nat): nat {
    (if m == 0 then 9 else SlotsUsed(m) - 1) * BSIZE
  }

  /** Word j of block b, which lists the blocks behind b that are in use. */
  function Entry(b: nat, j: nat): nat {
    if FreeBlock(b + 1 + j) then 0 else b + 1 + j
  }

  function ByteOf(v: nat, i: nat): Byte {
    if i == 0 then v % 0x100
    else if i == 1 then v / 0x100 % 0x100
    else if i == 2 then v / 0x1_0000 % 0x100
    else v / 0x100_0000 % 0x100
  }

  function FullBlock(b: nat): Block {
    seq(512, i requires 0 <= i < 512 => ByteOf(Entry(b, i / 4), i % 4))
  }

  function FullInode(m: nat): Inode {
    Inode(2, 1, FileSize(m), seq(NDIRECT + 1, k requires 0 <= k => Address(m, k)))
  }

  function FullDisk(): Disk {
    Disk(FULL_META, INODESTART, 47, seq(FULL_SIZE, b requires 0 <= b => !FreeBlock(b)),
         seq(FULL_SIZE, b requires 0 <= b => FullBlock(b)),
         seq(FULL + 1, m requires 0 <= m => FullInode(m)))
  }

  lemma EntryByte(b: nat, j: nat, i: nat)
    requires j < NINDIRECT && i < 4
    ensures FullBlock(b)[4 * j + i] == ByteOf(Entry(b, j), i)
  {
    hide Entry, ByteOf;
    assert (4 * j + i) / 4 == j && (4 * j + i) % 4 == i;
  }

  lemma WordOf(x: Block, j: nat, v: nat)
    requires j < NINDIRECT && v < UINT
    requires x[4 * j] == ByteOf(v, 0) && x[4 * j + 1] == ByteOf(v, 1)
    requires x[4 * j + 2] == ByteOf(v, 2) && x[4 * j + 3] == ByteOf(v, 3)
    ensures Word(x, j) == v
  {
    WordBytes(v);
  }

  lemma EntryBound(b: nat, j: nat)
    ensures Entry(b, j) <= b + 1 + j
  {
    hide FreeBlock;
  }

  lemma EntryAt(b: nat, j: nat)
    requires b < FULL_SIZE && j < NINDIRECT
    ensures Word(FullBlock(b), j) == Entry(b, j)
  {
    hide FullBlock, Entry, ByteOf, Word;
    EntryBound(b, j);
    EntryByte(b, j, 0);
    EntryByte(b, j, 1);
    EntryByte(b, j, 2);
    EntryByte(b, j, 3);
    WordOf(FullBlock(b), j, Entry(b, j));
  }

  /** The block that would be in slot k of file c + 1. */
  function Place(c: nat, k: nat): (b: nat)
    requires k < SLOTS
    ensures (b - FULL_BASE) / SLOTS == c && (b - FULL_BASE) % SLOTS == k && b >= FULL_BASE
  {
    FULL_BASE + SLOTS * c + k
  }

  lemma AddressOwner(m: nat, k: nat)
    requires m <= FULL && k < SlotsUsed(m)
    ensures FULL_META <= Address(m, k) < FULL_SIZE && !FreeBlock(Address(m, k)) && FullOwner(Address(m, k)) == (m, k)
  {
    hide Lacking;
    if m > 0 {
      assert Address(m, k) == Place(m - 1, k);
    }
  }

  lemma OwnerAddress(b: nat)
    requires FULL_META <= b < FULL_SIZE && !FreeBlock(b)
    ensures var o := FullOwner(b); o.0 <= FULL && o.1 < SlotsUsed(o.0) && Address(o.0, o.1) == b
  {
    hide Lacking;
  }

  lemma FullParts(d: Disk, m: nat)
    requires d == FullDisk() && m <= FULL
    ensures |d.inodes| == FULL + 1 && |d.inodes[m].addrs| == NDIRECT + 1 && |d.blocks| == FULL_SIZE
    ensures forall k :: 0 <= k <= NDIRECT ==> d.inodes[m].addrs[k] == Address(m, k)
    ensures forall b :: 0 <= b < FULL_SIZE ==> d.blocks[b] == FullBlock(b)
  {
    hide Address, FullBlock, FreeBlock, FileSize;
    assert d.inodes[m] == FullInode(m);
  }

  lemma FullRef(d: Disk, m: nat, k: nat)
    requires d == FullDisk() && m <= FULL && k < SLOTS
    ensures |d.inodes| == FULL + 1 && |d.inodes[m].addrs| == NDIRECT + 1
    ensures Ref(d.blocks, d.inodes[m], k) == Address(m, k)
  {
    FullParts(d, m);
    if m == 0 && k > NDIRECT {
      assert Address(m, NDIRECT) == Address(m, k) == 0;
    }
    hide FullDisk, FullBlock, Word, Address, SlotsUsed;
    if k > NDIRECT && m > 0 {
      var ind := Address(m, NDIRECT);
      HasIndirect(m);
      EntryAt(ind, k - NDIRECT - 1);
      NextEntry(m, k);
    }
  }

  lemma HasIndirect(m: nat)
    requires 0 < m <= FULL
    ensures FULL_META <= Address(m, NDIRECT) < FULL_SIZE
  {
    hide Lacking;
  }

  lemma NextEntry(m: nat, k: nat)
    requires 0 < m <= FULL && NDIRECT < k < SLOTS
    ensures Entry(Address(m, NDIRECT), k - NDIRECT - 1) == Address(m, k)
  {
    hide Lacking;
    var b := Place(m - 1, k);
    assert Address(m, NDIRECT) + 1 + (k - NDIRECT - 1) == b;
  }

  ghost function FullOwners(): map<nat, (nat, nat)> {
    map b | b in Numbers(FULL_META, FULL_SIZE) && !FreeBlock(b) :: FullOwner(b)
  }

  lemma FullOwnersAre(b: nat)
    ensures b in FullOwners() <==> FULL_META <= b < FULL_SIZE && !FreeBlock(b)
    ensures b in FullOwners() ==> FullOwners()[b] == FullOwner(b)
  {
    hide FreeBlock, FullOwner, Numbers;
  }

  lemma FullOwned(d: Disk)
    requires d == FullDisk()
    ensures Owned(d)
  {
    FullShape(d);
    hide FullDisk, RefsOwned, OwnersRefer, BitsRight, FullOwners;
    var owner := FullOwners();
    FullRefs(d, owner);
    FullBacks(d, owner);
    FullBits(d, owner);
    OwnedBy(d, owner);
  }

  lemma FullRefs(d: Disk, owner: map<nat, (nat, nat)>)
    requires d == FullDisk() && Shaped(d) && owner == FullOwners()
    ensures RefsOwned(d, owner)
  {
    FullShape(d);
    hide FullDisk, FreeBlock, FullOwner, Address, Ref, FullOwners;
    forall n, k | 0 <= n <= FULL && 0 <= k < SLOTS && Ref(d.blocks, d.inodes[n], k) != 0
      ensures Ref(d.blocks, d.inodes[n], k) in owner && owner[Ref(d.blocks, d.inodes[n], k)] == (n, k)
    {
      FullRef(d, n, k);
      FullSlot(n, k);
      FullOwnersAre(Address(n, k));
    }
  }

  lemma FullBacks(d: Disk, owner: map<nat, (nat, nat)>)
    requires d == FullDisk() && Shaped(d) && owner == FullOwners()
    ensures OwnersRefer(d, owner)
  {
    FullShape(d);
    hide FullDisk, FreeBlock, FullOwner, Address, Ref, FullOwners;
    forall b | b in owner
      ensures FULL_META <= b < FULL_SIZE && owner[b].0 <= FULL && owner[b].1 < SLOTS
              && Ref(d.blocks, d.inodes[owner[b].0], owner[b].1) == b
    {
      FullOwnersAre(b);
      FullBack(b);
      FullRef(d, owner[b].0, owner[b].1);
    }
  }

  lemma FullBits(d: Disk, owner: map<nat, (nat, nat)>)
    requires d == FullDisk() && owner == FullOwners()
    ensures BitsRight(d, owner)
  {
    FullShape(d);
    hide FullDisk, FreeBlock, FullOwners;
    forall b | 0 <= b < FULL_SIZE ensures d.bits[b] == (b < FULL_META || b in owner) {
      FullOwnersAre(b);
    }
  }

  lemma FullShape(d: Disk)
    requires d == FullDisk()
    ensures d.nmeta == FULL_META && |d.bits| == |d.blocks| == FULL_SIZE && |d.inodes| == FULL + 1 && Shaped(d)
    ensures forall b :: 0 <= b < FULL_SIZE ==> d.bits[b] == !FreeBlock(b)
    ensures forall b: nat :: b < FULL_META ==> !FreeBlock(b)
  {
  }

  lemma FullSlot(m: nat, k: nat)
    requires m <= FULL && k < SLOTS
    ensures Address(m, k) != 0 ==>
              FULL_META <= Address(m, k) < FULL_SIZE && !FreeBlock(Address(m, k)) && FullOwner(Address(m, k)) == (m, k)
  {
    if k < SlotsUsed(m) {
      AddressOwner(m, k);
    }
  }

  lemma FullBack(b: nat)
    requires FULL_META <= b < FULL_SIZE && !FreeBlock(b)
    ensures var o := FullOwner(b); o.0 <= FULL && o.1 < SLOTS && Address(o.0, o.1) == b
  {
    OwnerAddress(b);
  }

  lemma FullExtent(d: Disk, m: nat)
    requires d == FullDisk() && m <= FULL
    ensures Extent(d.blocks, d.inodes[m], BlocksFor(d.inodes[m].size))
  {
    var nb := BlocksFor(d.inodes[m].size);
    assert nb == if m == 0 then 9 else SlotsUsed(m) - 1;
    forall bn | 0 <= bn < MAXFILE ensures FileBlk(d.blocks, d.inodes[m], bn) != 0 <==> bn < nb {
      FullRef(d, m, Slot(bn));
    }
    FullRef(d, m, NDIRECT);
  }

  lemma FullSound(d: Disk)
    requires d == FullDisk()
    ensures Sound(d)
  {
    FullOwned(d);
    hide Extent, FullBlock, Address, FreeBlock, Owned;
    forall m | 0 <= m <= FULL ensures Extent(d.blocks, d.inodes[m], BlocksFor(d.inodes[m].size)) {
      FullExtent(d, m);
    }
  }

  lemma FullFree(d: Disk)
    requires d == FullDisk()
    ensures FreeOf(d.bits) == {201, 4290, 8379, 12468, 16557} && |FreeOf(d.bits)| == 5
  {
    hide FullDisk, FreeBlock, FreeOf;
    FullShape(d);
    FreeSet(d.bits);
    FiveSize(FreeOf(d.bits));
  }

  lemma FiveSize(s: set<nat>)
    requires s == {201, 4290, 8379, 12468, 16557}
    ensures |s| == 5
  {
    assert s == {201, 4290, 8379} + {12468, 16557};
  }

  lemma FreeSet(bits: seq<bool>)
    requires |bits| == FULL_SIZE && forall b :: 0 <= b < FULL_SIZE ==> bits[b] == !FreeBlock(b)
    ensures FreeOf(bits) == {201, 4290, 8379, 12468, 16557}
  {
    hide FreeBlock;
    forall b: nat ensures b in FreeOf(bits) <==> b in {201, 4290, 8379, 12468, 16557} {
      if b < FULL_SIZE {
        FreeBlocks(b);
      }
    }
  }

  lemma FreeBlocks(b: nat)
    requires b < FULL_SIZE
    ensures FreeBlock(b) <==> b in {201, 4290, 8379, 12468, 16557}
  {
    hide Lacking;
    if b >= FULL_BASE && (b - FULL_BASE) % SLOTS == SLOTS - 1 {
      var c := (b - FULL_BASE) / SLOTS;
      assert b == FULL_BASE + SLOTS * c + SLOTS - 1;
      Every29th(c);
    }
  }

  lemma Every29th(c: nat)
    requires c < FULL
    ensures Lacking(c) <==> c == 0 || c == 29 || c == 58 || c == 87 || c == 116
  {
  }

  lemma FullMaps(d: Disk)
    requires d == FullDisk()
    ensures |Maps(47, Fresh(d.bits, Marked(d.bits, 5)))| == 5
  {
    FullFree(d);
    AllocsFree(d.bits, 5);
    var news := Fresh(d.bits, Marked(d.bits, 5));
    SameSize(news, FreeOf(d.bits));
    FiveMaps(news);
  }

  lemma SameSize(a: set<nat>, b: set<nat>)
    requires a <= b && |a| == |b|
    ensures a == b
  {
    if b - a != {} {
      var x :| x in b - a;
      SubsetSize(a + {x}, b);
    }
  }

  lemma FiveMaps(news: set<nat>)
    requires news == {201, 4290, 8379, 12468, 16557}
    ensures |Maps(47, news)| == 5
  {
    var maps := Maps(47, news);
    assert 201 in news && 4290 in news && 8379 in news && 12468 in news && 16557 in news;
    assert 201 / BPB + 47 in maps && 4290 / BPB + 47 in maps && 8379 / BPB + 47 in maps && 12468 / BPB + 47 in maps
           && 16557 / BPB + 47 in maps;
    assert maps == {47, 48, 49, 50, 51};
  }

  /** One byte more than three blocks, where the file passes from direct to indirect blocks: four data
      blocks, five bitmap blocks, the indirect block and the inode. */
  lemma FullCost(d: Disk)
    requires d == FullDisk()
    ensures Writable(d, 0, 9 * BSIZE, 3 * BSIZE + 1) && Cost(d, 0, 9 * BSIZE, 3 * BSIZE + 1) == 11
  {
    FullSound(d);
    FullFree(d);
    FullMaps(d);
    assert d.inodes[0] == FullInode(0) && d.bmapstart == 47;
    hide Sound, Maps, Fresh, Marked, FreeOf, FullDisk;
    assert d.inodes[0].size == 9 * BSIZE && NewSlots(9 * BSIZE, 12 * BSIZE + 1) == 5;
  }

  /** Writes of at most k bytes, at any offset and in any state of any disk, log at most MAXOPBLOCKS blocks
      exactly if k is at most three blocks. */
  lemma AnyDiskLimit(k: nat)
    ensures Within(k, MAXOPBLOCKS, UINT) <==> k <= 3 * BSIZE
  {
    if k <= 3 * BSIZE {
      forall d, n: nat, off: nat, len: nat | Writable(d, n, off, len) && len <= k && |d.bits| <= UINT
        ensures Cost(d, n, off, len) <= MAXOPBLOCKS
      {
        ShortCost(d, n, off, len);
      }
    } else {
      var d := FullDisk();
      FullCost(d);
      FullShape(d);
      hide FullDisk, Writable, Cost;
      assert !Within(k, MAXOPBLOCKS, UINT);
    }
  }

  lemma ShortCost(d: Disk, n: nat, off: nat, len: nat)
    requires Writable(d, n, off, len) && len <= 3 * BSIZE
    ensures Cost(d, n, off, len) <= MAXOPBLOCKS
  {
    hide Sound, Maps, Fresh, Marked, FreeOf, Spans, NewSlots, BlocksFor;
    var m := NewSlots(d.inodes[n].size, off + len);
    AllocsFree(d.bits, m);
    MapsSize(d.bmapstart, Fresh(d.bits, Marked(d.bits, m)));
    SpansBound(d.inodes[n].size, off, off + len);
  }

  /** The write that overruns, on the running file system. */
  method LongWriteOverruns(src: seq<Byte>) returns (fs: FileSystem)
    requires |src| == 3 * BSIZE + 1
    ensures fresh(fs) && fs.Valid(0) && |fs.logged| == 11 > MAXOPBLOCKS
  {
    var d := FullDisk();
    FullCost(d);
    hide Writable, Cost, FullDisk;
    fs := WriteOnce(d, 0, 9 * BSIZE, src);
  }
}
