/** Inodes and the blocks they own: bmap, itrunc, readi, writei and the chunks of filewrite.

    Disk blocks are seen through the log, so a block is simply its current contents.  An inode
    refers to blocks through 141 slots: twelve direct addresses, the address of its indirect block,
    and the 128 addresses stored in that block. */
module FileBlocks {
  import opened BlockBitmap
  import opened Common

  const NDIRECT: nat := 12
  const NINDIRECT: nat := 128
  const MAXFILE: nat := 140
  const SLOTS: nat := 141
  const IPB: nat := 8

  type Byte = b: int | 0 <= b < 256
  type Block = b: seq<Byte> | |b| == 512 witness seq(512, i => 0)

  /** struct inode, as far as its content is concerned. */
  datatype Inode = Inode(typ: int, nlink: int, size: nat, addrs: seq<nat>)

  /** The uint at index j of a block, least significant byte first. */
  function Word(b: Block, j: nat): nat
    requires j < NINDIRECT
  {
    var b0: int, b1: int, b2: int, b3: int := b[4 * j], b[4 * j + 1], b[4 * j + 2], b[4 * j + 3];
    b0 + 0x100 * b1 + 0x1_0000 * b2 + 0x100_0000 * b3
  }

  function SetWord(b: Block, j: nat, v: nat): Block
    requires j < NINDIRECT && v < UINT
  {
    b[4 * j := v % 0x100]
     [4 * j + 1 := v / 0x100 % 0x100]
     [4 * j + 2 := v / 0x1_0000 % 0x100]
     [4 * j + 3 := v / 0x100_0000 % 0x100]
  }

  lemma WordBytes(v: nat)
    requires v < UINT
    ensures v % 0x100 + 0x100 * (v / 0x100 % 0x100) + 0x1_0000 * (v / 0x1_0000 % 0x100)
              + 0x100_0000 * (v / 0x100_0000 % 0x100) == v
  {
  }

  /** Storing a word: it reads back, and its neighbours are untouched. */
  lemma SetWordAt(b: Block, j: nat, v: nat, i: nat)
    requires j < NINDIRECT && i < NINDIRECT && v < UINT
    ensures Word(SetWord(b, j, v), i) == if i == j then v else Word(b, i)
  {
    WordBytes(v);
  }

  function Zero(): Block {
    seq(512, i => 0)
  }

  /** The block number in slot k of an inode; 0 when the slot is empty. */
  function Ref(blocks: seq<Block>, ip: Inode, k: nat): nat
    requires |ip.addrs| == NDIRECT + 1
  {
    if k <= NDIRECT then ip.addrs[k]
    else if ip.addrs[NDIRECT] == 0 || ip.addrs[NDIRECT] >= |blocks| || k >= SLOTS then 0
    else Word(blocks[ip.addrs[NDIRECT]], k - NDIRECT - 1)
  }

  /** The slot that holds the address of a file's nth block. */
  function Slot(bn: nat): nat {
    if bn < NDIRECT then bn else bn + 1
  }

  function FileBlk(blocks: seq<Block>, ip: Inode, bn: nat): nat
    requires |ip.addrs| == NDIRECT + 1
  {
    Ref(blocks, ip, Slot(bn))
  }

  /** Block b belongs to slot k of inode n exactly when owner[b] == (n, k), and the free map marks
      exactly the owned blocks and the metadata blocks below nmeta. */
  ghost predicate OwnerOk(nmeta: nat, bits: seq<bool>, blocks: seq<Block>, inodes: seq<Inode>,
                          owner: map<nat, (nat, nat)>)
  {
    && 0 < nmeta && |bits| == |blocks| < UINT
    && (forall n :: 0 <= n < |inodes| ==> |inodes[n].addrs| == NDIRECT + 1)
    && (forall n, k :: 0 <= n < |inodes| && 0 <= k < SLOTS && Ref(blocks, inodes[n], k) != 0
          ==> Ref(blocks, inodes[n], k) in owner && owner[Ref(blocks, inodes[n], k)] == (n, k))
    && (forall b :: b in owner ==> nmeta <= b < |blocks| && owner[b].0 < |inodes| && owner[b].1 < SLOTS
                                   && Ref(blocks, inodes[owner[b].0], owner[b].1) == b)
    && (forall b :: 0 <= b < |bits| ==> bits[b] == (b < nmeta || b in owner))
  }

  /** Slot k of inode n holds block number b. */
  ghost predicate RefersTo(blocks: seq<Block>, inodes: seq<Inode>, n: int, k: int, b: nat) {
    && 0 <= n < |inodes| && 0 <= k < SLOTS && |inodes[n].addrs| == NDIRECT + 1
    && Ref(blocks, inodes[n], k) == b
  }

  /** A free-map bit is set exactly when the block is metadata or some slot of some inode refers to
      it, and then no other slot does. */
  lemma OwnedExactlyOnce(nmeta: nat, bits: seq<bool>, blocks: seq<Block>, inodes: seq<Inode>,
                         owner: map<nat, (nat, nat)>, b: nat)
    requires OwnerOk(nmeta, bits, blocks, inodes, owner) && b < |bits|
    ensures bits[b] <==> b < nmeta || (exists n, k :: RefersTo(blocks, inodes, n, k, b))
    ensures b != 0 ==> forall n, k, n', k' ::
                         RefersTo(blocks, inodes, n, k, b) && RefersTo(blocks, inodes, n', k', b) ==> n == n' && k == k'
  {
    if b in owner {
      var n, k := owner[b].0, owner[b].1;
      assert RefersTo(blocks, inodes, n, k, b);
    }
  }

  /** How many blocks hold the first e bytes of a file. */
  function BlocksFor(e: nat): nat {
    (e + BSIZE - 1) / BSIZE
  }

  /** The file has its first nb blocks and no others, and an indirect block exactly if it needs one:
      no holes, and nothing past the end. */
  ghost predicate Extent(blocks: seq<Block>, ip: Inode, nb: nat) {
    && |ip.addrs| == NDIRECT + 1
    && nb <= MAXFILE
    && (forall bn :: 0 <= bn < MAXFILE ==> (FileBlk(blocks, ip, bn) != 0 <==> bn < nb))
    && (ip.addrs[NDIRECT] != 0 <==> NDIRECT < nb)
  }

  function ByteAt(blocks: seq<Block>, ip: Inode, i: nat): Byte
    requires |ip.addrs| == NDIRECT + 1
  {
    var b := FileBlk(blocks, ip, i / BSIZE);
    if b < |blocks| then blocks[b][i % BSIZE] else 0
  }

  /** The file's contents as a byte string. */
  function Contents(blocks: seq<Block>, ip: Inode): seq<Byte>
    requires |ip.addrs| == NDIRECT + 1
  {
    seq(ip.size, i requires 0 <= i < ip.size => ByteAt(blocks, ip, i))
  }

  /** Overwriting s from offset off with t, extending it if t reaches past the end. */
  function Splice(s: seq<Byte>, off: nat, t: seq<Byte>): seq<Byte>
    requires off <= |s|
  {
    if off + |t| <= |s| then s[..off] + t + s[off + |t|..] else s[..off] + t
  }

  // ---- Which blocks balloc hands out ----

  /** The lowest free block from i on, or the size of the map. */
  function FirstFree(bits: seq<bool>, i: nat): (r: nat)
    requires i <= |bits|
    ensures i <= r <= |bits| && (forall c :: i <= c < r ==> bits[c]) && (r < |bits| ==> !bits[r])
    decreases |bits| - i
  {
    if i < |bits| && bits[i] then FirstFree(bits, i + 1) else i
  }

  /** The free map after m calls of balloc, each of which takes the lowest free block. */
  ghost function Marked(bits: seq<bool>, m: nat): (r: seq<bool>)
    ensures |r| == |bits|
  {
    if m == 0 then bits
    else
      var b := Marked(bits, m - 1);
      var f := FirstFree(b, 0);
      if f < |b| then b[f := true] else b
  }

  ghost function FreeOf(bits: seq<bool>): set<nat> {
    set b: nat | b < |bits| && !bits[b]
  }

  /** The blocks taken since. */
  ghost function Fresh(bits: seq<bool>, bits': seq<bool>): set<nat> {
    set b: nat | b < |bits| && b < |bits'| && !bits[b] && bits'[b]
  }

  /** m calls of balloc have succeeded. */
  ghost predicate Allocs(bits: seq<bool>, bits': seq<bool>, m: nat) {
    m <= |FreeOf(bits)| && bits' == Marked(bits, m)
  }

  lemma AllocsOne(bits: seq<bool>, b: nat)
    requires b < |bits| && !bits[b] && forall c :: 0 <= c < b ==> bits[c]
    ensures Allocs(bits, bits[b := true], 1) && Fresh(bits, bits[b := true]) == {b}
  {
    assert Marked(bits, 0) == bits;
    assert FirstFree(bits, 0) == b;
    SubsetSize({b}, FreeOf(bits));
  }

  lemma AllocsNone(bits: seq<bool>)
    ensures Allocs(bits, bits, 0) && Fresh(bits, bits) == {}
  {
  }

  lemma SomeFree(b: seq<bool>)
    requires |FreeOf(b)| > 0
    ensures FirstFree(b, 0) < |b|
  {
    assert FreeOf(b) != {};
    var x :| x in FreeOf(b);
    assert FirstFree(b, 0) <= x;
  }

  lemma MarkOne(bits: seq<bool>, b: seq<bool>, f: nat)
    requires |b| == |bits| && f < |b| && !b[f] && FreeOf(b) == FreeOf(bits) - Fresh(bits, b)
    ensures FreeOf(b[f := true]) == FreeOf(b) - {f}
    ensures Fresh(bits, b[f := true]) == Fresh(bits, b) + {f} && f in FreeOf(b) && f !in Fresh(bits, b)
  {
    assert f in FreeOf(b);
  }

  lemma {:induction false} AllocsFree(bits: seq<bool>, m: nat)
    requires m <= |FreeOf(bits)|
    ensures FreeOf(Marked(bits, m)) == FreeOf(bits) - Fresh(bits, Marked(bits, m))
    ensures |Fresh(bits, Marked(bits, m))| == m && Fresh(bits, Marked(bits, m)) <= FreeOf(bits)
    ensures |FreeOf(Marked(bits, m))| == |FreeOf(bits)| - m
  {
    hide FreeOf, Fresh;
    if m == 0 {
      AllocsNone(bits);
    } else {
      AllocsFree(bits, m - 1);
      var b := Marked(bits, m - 1);
      var f := FirstFree(b, 0);
      SomeFree(b);
      MarkOne(bits, b, f);
      assert FreeOf(b) - {f} == FreeOf(bits) - (Fresh(bits, b) + {f});
    }
  }

  lemma {:induction false} MarkedMore(bits: seq<bool>, i: nat, j: nat)
    ensures Marked(Marked(bits, i), j) == Marked(bits, i + j)
  {
    if j > 0 {
      MarkedMore(bits, i, j - 1);
    }
  }

  /** One stretch of calls after another: the blocks taken add up, and so does what is missing. */
  lemma AllocsThen(bits: seq<bool>, bits1: seq<bool>, i: nat, j: nat)
    requires Allocs(bits, bits1, i)
    ensures |FreeOf(bits1)| < j ==> |FreeOf(bits)| < i + j
    ensures forall bits2 :: Allocs(bits1, bits2, j) ==>
              Allocs(bits, bits2, i + j) && Fresh(bits, bits2) == Fresh(bits, bits1) + Fresh(bits1, bits2)
  {
    hide FreeOf, Fresh, Marked;
    AllocsFree(bits, i);
    if j <= |FreeOf(bits1)| {
      var bits2 := Marked(bits1, j);
      MarkedMore(bits, i, j);
      AllocsFree(bits1, j);
      FreshChain(bits, bits1, bits2);
    }
  }

  lemma AllocsShort(bits: seq<bool>, bits1: seq<bool>, i: nat, j: nat)
    requires Allocs(bits, bits1, i)
    ensures |FreeOf(bits1)| < j ==> |FreeOf(bits)| < i + j
  {
    AllocsFree(bits, i);
  }

  lemma FreshChain(bits: seq<bool>, bits1: seq<bool>, bits2: seq<bool>)
    requires |bits| == |bits1| == |bits2|
    requires FreeOf(bits1) == FreeOf(bits) - Fresh(bits, bits1) && FreeOf(bits2) == FreeOf(bits1) - Fresh(bits1, bits2)
    ensures Fresh(bits, bits2) == Fresh(bits, bits1) + Fresh(bits1, bits2)
  {
    forall c: nat | c < |bits| ensures (bits[c] ==> bits1[c]) && (bits1[c] ==> bits2[c]) {
      assert c in FreeOf(bits) <==> !bits[c];
      assert c in FreeOf(bits1) <==> !bits1[c];
      assert c in FreeOf(bits2) <==> !bits2[c];
    }
  }

  lemma NotOwned(nmeta: nat, bits: seq<bool>, blocks: seq<Block>, inodes: seq<Inode>, owner: map<nat, (nat, nat)>,
                 b: nat)
    requires OwnerOk(nmeta, bits, blocks, inodes, owner) && b < |bits| && !bits[b]
    ensures b !in owner && 0 < b < |blocks| < UINT
  {
  }

  lemma RefOwned(nmeta: nat, bits: seq<bool>, blocks: seq<Block>, inodes: seq<Inode>, owner: map<nat, (nat, nat)>,
                 n: nat, k: nat)
    requires OwnerOk(nmeta, bits, blocks, inodes, owner) && n < |inodes| && k < SLOTS
    ensures |inodes[n].addrs| == NDIRECT + 1 && OwnerKept(owner, owner)
    ensures Ref(blocks, inodes[n], k) != 0 ==>
              Ref(blocks, inodes[n], k) in owner && owner[Ref(blocks, inodes[n], k)] == (n, k)
              && Ref(blocks, inodes[n], k) < |blocks|
  {
  }

  // ---- Giving a block to a slot, and taking it away ----

  /** Slots in use when a file has nb blocks. */
  function SlotsFor(nb: nat): nat {
    if nb <= NDIRECT then nb else nb + 1
  }

  /** What bmap allocates for block bn. */
  function NewBlocks(bn: nat, b: nat, ind: nat): set<nat> {
    if bn == NDIRECT then {b, ind} else {b}
  }

  /** Every block owned before still is. */
  ghost predicate OwnerKept(owner: map<nat, (nat, nat)>, owner': map<nat, (nat, nat)>) {
    forall c :: c in owner ==> c in owner' && owner'[c] == owner[c]
  }

  /** Only slot (n, k) changes, from empty to b. */
  ghost predicate SlotFilled(blocks: seq<Block>, inodes: seq<Inode>, blocks': seq<Block>, inodes': seq<Inode>,
                             n: nat, k: nat, b: nat)
  {
    && |inodes'| == |inodes| && |blocks'| == |blocks|
    && (forall m :: 0 <= m < |inodes| ==> |inodes[m].addrs| == |inodes'[m].addrs| == NDIRECT + 1)
    && (forall m, j :: 0 <= m < |inodes| && 0 <= j < SLOTS
          ==> Ref(blocks', inodes'[m], j) == if m == n && j == k then b else Ref(blocks, inodes[m], j))
  }

  lemma OwnerAdd(nmeta: nat, bits: seq<bool>, blocks: seq<Block>, inodes: seq<Inode>, owner: map<nat, (nat, nat)>,
                 blocks': seq<Block>, inodes': seq<Inode>, n: nat, k: nat, b: nat)
    requires OwnerOk(nmeta, bits, blocks, inodes, owner)
    requires n < |inodes| && k < SLOTS && b < |bits| && !bits[b]
    requires Ref(blocks, inodes[n], k) == 0
    requires SlotFilled(blocks, inodes, blocks', inodes', n, k, b)
    ensures OwnerOk(nmeta, bits[b := true], blocks', inodes', owner[b := (n, k)])
  {
    var owner' := owner[b := (n, k)];
    forall c | c in owner'
      ensures nmeta <= c < |blocks| && owner'[c].0 < |inodes'| && owner'[c].1 < SLOTS
              && Ref(blocks', inodes'[owner'[c].0], owner'[c].1) == c
    {
      if c != b {
        assert Ref(blocks, inodes[owner[c].0], owner[c].1) == c;
      }
    }
  }

  /** A fresh block is nobody's indirect block, so zeroing it changes no slot. */
  lemma ZeroFresh(nmeta: nat, bits: seq<bool>, blocks: seq<Block>, inodes: seq<Inode>, owner: map<nat, (nat, nat)>,
                  b: nat)
    requires OwnerOk(nmeta, bits, blocks, inodes, owner) && b < |bits| && !bits[b]
    ensures forall m, j :: 0 <= m < |inodes| && 0 <= j < SLOTS
              ==> Ref(blocks[b := Zero()], inodes[m], j) == Ref(blocks, inodes[m], j)
  {
    forall m, j | 0 <= m < |inodes| && 0 <= j < SLOTS
      ensures Ref(blocks[b := Zero()], inodes[m], j) == Ref(blocks, inodes[m], j)
    {
      assert Ref(blocks, inodes[m], NDIRECT) == inodes[m].addrs[NDIRECT];
    }
  }

  lemma FillDirect(nmeta: nat, bits: seq<bool>, blocks: seq<Block>, inodes: seq<Inode>, owner: map<nat, (nat, nat)>,
                   n: nat, k: nat, b: nat)
    requires OwnerOk(nmeta, bits, blocks, inodes, owner)
    requires n < |inodes| && k <= NDIRECT && b < |bits| && !bits[b] && inodes[n].addrs[k] == 0
    ensures SlotFilled(blocks, inodes, blocks[b := Zero()],
                       inodes[n := inodes[n].(addrs := inodes[n].addrs[k := b])], n, k, b)
  {
    ZeroFresh(nmeta, bits, blocks, inodes, owner, b);
    var blocks' := blocks[b := Zero()];
    var ip' := inodes[n].(addrs := inodes[n].addrs[k := b]);
    forall j | 0 <= j < SLOTS ensures Ref(blocks', ip', j) == if j == k then b else Ref(blocks, inodes[n], j) {
      if k == NDIRECT && j > NDIRECT {
        assert Word(Zero(), j - NDIRECT - 1) == 0;
      } else {
        assert Ref(blocks', inodes[n], j) == Ref(blocks, inodes[n], j);
      }
    }
    forall m, j | 0 <= m < |inodes| && m != n && 0 <= j < SLOTS
      ensures Ref(blocks', inodes[m], j) == Ref(blocks, inodes[m], j)
    {
    }
  }

  lemma FillIndirect(nmeta: nat, bits: seq<bool>, blocks: seq<Block>, inodes: seq<Inode>, owner: map<nat, (nat, nat)>,
                     n: nat, j: nat, b: nat)
    requires OwnerOk(nmeta, bits, blocks, inodes, owner)
    requires n < |inodes| && j < NINDIRECT && b < |bits| && !bits[b]
    requires inodes[n].addrs[NDIRECT] != 0 && Ref(blocks, inodes[n], NDIRECT + 1 + j) == 0
    ensures inodes[n].addrs[NDIRECT] < |blocks| && inodes[n].addrs[NDIRECT] != b
    ensures SlotFilled(blocks, inodes,
                       blocks[b := Zero()][inodes[n].addrs[NDIRECT] :=
                         SetWord(blocks[inodes[n].addrs[NDIRECT]], j, b)],
                       inodes, n, NDIRECT + 1 + j, b)
  {
    var ind := inodes[n].addrs[NDIRECT];
    assert Ref(blocks, inodes[n], NDIRECT) == ind;
    ZeroFresh(nmeta, bits, blocks, inodes, owner, b);
    var blocks1 := blocks[b := Zero()];
    var blocks' := blocks1[ind := SetWord(blocks[ind], j, b)];
    forall m, i | 0 <= m < |inodes| && 0 <= i < SLOTS
      ensures Ref(blocks', inodes[m], i)
           == if m == n && i == NDIRECT + 1 + j then b else Ref(blocks, inodes[m], i)
    {
      assert Ref(blocks1, inodes[m], i) == Ref(blocks, inodes[m], i);
      assert Ref(blocks, inodes[m], NDIRECT) == inodes[m].addrs[NDIRECT];
      if m == n && i > NDIRECT {
        SetWordAt(blocks[ind], j, b, i - NDIRECT - 1);
      } else if i > NDIRECT && inodes[m].addrs[NDIRECT] != 0 {
        assert inodes[m].addrs[NDIRECT] != ind;
      }
    }
  }

  /** Every inode but n has the blocks its size calls for and agrees with its copy on disk. */
  ghost predicate OthersOk(blocks: seq<Block>, inodes: seq<Inode>, dinodes: seq<Inode>, n: nat) {
    && |dinodes| == |inodes|
    && forall m :: 0 <= m < |inodes| && m != n ==>
          Extent(blocks, inodes[m], BlocksFor(inodes[m].size)) && dinodes[m] == inodes[m]
  }

  /** The mounted file system: the free map, the blocks, the cached inodes and their copies on disk.
      `logged` is the set of blocks passed to log_write in the current transaction. */
  class FileSystem {
    const bm: Bitmap
    const nmeta: nat
    const inodestart: nat
    const bmapstart: nat
    var blocks: seq<Block>
    var inodes: seq<Inode>
    var dinodes: seq<Inode>
    ghost var owner: map<nat, (nat, nat)>
    ghost var logged: set<nat>

    constructor (bm: Bitmap, nmeta: nat, inodestart: nat, bmapstart: nat,
                 blocks: seq<Block>, inodes: seq<Inode>, ghost owner: map<nat, (nat, nat)>)
      ensures this.bm == bm && this.nmeta == nmeta && this.inodestart == inodestart && this.bmapstart == bmapstart
      ensures this.blocks == blocks && this.inodes == inodes && this.dinodes == inodes
      ensures this.owner == owner && this.logged == {}
    {
      this.bm := bm;
      this.nmeta := nmeta;
      this.inodestart := inodestart;
      this.bmapstart := bmapstart;
      this.blocks := blocks;
      this.inodes := inodes;
      this.dinodes := inodes;
      this.owner := owner;
      this.logged := {};
    }

    /** Ownership is consistent and every file but inode n has the blocks its size calls for; inode
        n has nb blocks. */
    ghost predicate Consistent(n: nat, nb: nat)
      reads this, bm
    {
      && bm.Valid() && bm.size == |blocks|
      && OwnerOk(nmeta, bm.bits, blocks, inodes, owner)
      && n < |inodes|
      && Extent(blocks, inodes[n], nb)
      && OthersOk(blocks, inodes, dinodes, n)
    }

    ghost predicate Valid(n: nat)
      reads this, bm
    {
      && n < |inodes| && Consistent(n, BlocksFor(inodes[n].size)) && dinodes == inodes
    }

    function BBlock(b: nat): nat {
      b / BPB + bmapstart
    }

    /** The blocks bmap logs for a new block b at position bn. */
    function NewLogs(bn: nat, b: nat, ind: nat): set<nat> {
      LogSet(bn, b, BBlock(b), ind, BBlock(ind))
    }

    function IBlock(n: nat): nat {
      n / IPB + inodestart
    }

    /** Every block is in use. */
    ghost predicate Full()
      reads this, bm
    {
      forall b :: 0 <= b < |bm.bits| ==> bm.bits[b]
    }

    /** balloc: a zeroed block, or none where the source panics. */
    method Balloc() returns (r: Option<nat>)
      requires bm.Valid() && bm.size == |blocks|
      modifies this`blocks, this`logged, bm
      ensures bm.Valid()
      ensures r.Some? ==> r.value < |old(blocks)| && !old(bm.bits)[r.value]
                          && bm.bits == old(bm.bits)[r.value := true]
                          && blocks == old(blocks)[r.value := Zero()]
                          && logged == old(logged) + {BBlock(r.value), r.value}
      ensures r.Some? ==> Allocs(old(bm.bits), bm.bits, 1) && Fresh(old(bm.bits), bm.bits) == {r.value}
      ensures r.None? ==> Full() && |FreeOf(old(bm.bits))| < 1
    {
      ghost var bits := bm.bits;
      r := bm.Balloc();
      if r.Some? {
        AllocsOne(bits, r.value);
        blocks := blocks[r.value := Zero()];
        logged := logged + {BBlock(r.value), r.value};
      } else {
        assert FreeOf(bits) == {};
      }
    }

    /** Allocate a block into an empty slot of inode n: a direct address or the indirect pointer. */
    method FillAddr(n: nat, k: nat) returns (r: Option<nat>)
      requires bm.Valid() && bm.size == |blocks| && OwnerOk(nmeta, bm.bits, blocks, inodes, owner)
      requires n < |inodes| && k <= NDIRECT && inodes[n].addrs[k] == 0
      modifies this`blocks, this`inodes, this`owner, this`logged, bm
      ensures r.Some? ==> bm.Valid() && bm.size == |blocks| && OwnerOk(nmeta, bm.bits, blocks, inodes, owner)
      ensures r.Some? ==> FilledBy(old(blocks), old(inodes), old(owner), blocks, inodes, owner, n, k, r.value)
      ensures r.Some? ==> inodes[n].addrs == old(inodes[n].addrs)[k := r.value]
      ensures r.Some? ==> logged == old(logged) + {BBlock(r.value), r.value}
      ensures r.Some? ==> Allocs(old(bm.bits), bm.bits, 1) && Fresh(old(bm.bits), bm.bits) == {r.value}
      ensures r.None? ==> Full() && |FreeOf(old(bm.bits))| < 1
    {
      r := Balloc();
      if r.Some? {
        var b := r.value;
        FillDirect(nmeta, old(bm.bits), old(blocks), inodes, owner, n, k, b);
        inodes := inodes[n := inodes[n].(addrs := inodes[n].addrs[k := b])];
        OwnerAdd(nmeta, old(bm.bits), old(blocks), old(inodes), owner, blocks, inodes, n, k, b);
        owner := owner[b := (n, k)];
      }
    }

    /** Allocate a block into an empty entry of inode n's indirect block. */
    method FillEntry(n: nat, j: nat) returns (r: Option<nat>)
      requires bm.Valid() && bm.size == |blocks| && OwnerOk(nmeta, bm.bits, blocks, inodes, owner)
      requires n < |inodes| && j < NINDIRECT && inodes[n].addrs[NDIRECT] != 0
      requires Ref(blocks, inodes[n], NDIRECT + 1 + j) == 0
      modifies this`blocks, this`owner, this`logged, bm
      ensures r.Some? ==> bm.Valid() && bm.size == |blocks| && OwnerOk(nmeta, bm.bits, blocks, inodes, owner)
      ensures r.Some? ==> FilledBy(old(blocks), inodes, old(owner), blocks, inodes, owner, n, NDIRECT + 1 + j, r.value)
      ensures r.Some? ==> logged == old(logged) + {BBlock(r.value), r.value, inodes[n].addrs[NDIRECT]}
      ensures r.Some? ==> 0 < r.value < |blocks|
      ensures r.Some? ==> Allocs(old(bm.bits), bm.bits, 1) && Fresh(old(bm.bits), bm.bits) == {r.value}
      ensures r.None? ==> Full() && |FreeOf(old(bm.bits))| < 1
    {
      hide Allocs, Fresh, FreeOf, OwnerOk, SlotFilled, Word, SetWord;
      RefOwned(nmeta, bm.bits, blocks, inodes, owner, n, NDIRECT);
      var ind := inodes[n].addrs[NDIRECT];
      assert Ref(blocks, inodes[n], NDIRECT) == ind;
      r := Balloc();
      if r.Some? {
        var b := r.value;
        NotOwned(nmeta, old(bm.bits), old(blocks), inodes, owner, b);
        FillIndirect(nmeta, old(bm.bits), old(blocks), inodes, owner, n, j, b);
        blocks := blocks[ind := SetWord(blocks[ind], j, b)];
        logged := logged + {ind};
        OwnerAdd(nmeta, old(bm.bits), old(blocks), inodes, owner, blocks, inodes, n, NDIRECT + 1 + j, b);
        owner := owner[b := (n, NDIRECT + 1 + j)];
      }
    }

    /** bmap: the block that holds the file's bnth block, allocated if there is none; nothing where
        the source panics for want of blocks.  A block inside the file is only looked up. */
    method Bmap(n: nat, bn: nat, ghost nb: nat) returns (r: Option<nat>)
      requires Consistent(n, nb) && bn < MAXFILE && bn <= nb
      modifies this`blocks, this`inodes, this`owner, this`logged, bm
      ensures bn < nb ==> r.Some? && blocks == old(blocks) && inodes == old(inodes) && owner == old(owner)
                                 && logged == old(logged) && bm.bits == old(bm.bits)
      ensures r.Some? ==> Consistent(n, if bn < nb then nb else nb + 1)
      ensures r.Some? ==> 0 < r.value < |blocks| && r.value == FileBlk(blocks, inodes[n], bn)
      ensures r.Some? ==> FilesKept(old(blocks), old(inodes), blocks, inodes, n, nb)
      ensures r.Some? && bn == nb ==> r.value !in old(owner)
      ensures r.Some? && bn == nb ==> logged == old(logged) + NewLogs(bn, r.value, inodes[n].addrs[NDIRECT])
      ensures r.Some? && bn == nb ==> Allocs(old(bm.bits), bm.bits, SlotsFor(nb + 1) - SlotsFor(nb))
      ensures r.Some? && bn == nb ==>
                Fresh(old(bm.bits), bm.bits) == NewBlocks(bn, r.value, inodes[n].addrs[NDIRECT])
      ensures r.Some? ==> OwnerKept(old(owner), owner) && r.value in owner && owner[r.value] == (n, Slot(bn))
      ensures r.None? ==> Full() && |FreeOf(old(bm.bits))| < SlotsFor(nb + 1) - SlotsFor(nb)
    {
      if bn < NDIRECT {
        r := BmapDirect(n, bn, nb);
      } else {
        r := BmapIndirect(n, bn - NDIRECT, nb);
      }
    }

    method BmapDirect(n: nat, bn: nat, ghost nb: nat) returns (r: Option<nat>)
      requires Consistent(n, nb) && bn < NDIRECT && bn <= nb
      modifies this`blocks, this`inodes, this`owner, this`logged, bm
      ensures bn < nb ==> r.Some? && blocks == old(blocks) && inodes == old(inodes) && owner == old(owner)
                                 && logged == old(logged) && bm.bits == old(bm.bits)
      ensures r.Some? ==> Consistent(n, if bn < nb then nb else nb + 1)
      ensures r.Some? ==> 0 < r.value < |blocks| && r.value == FileBlk(blocks, inodes[n], bn)
      ensures r.Some? ==> FilesKept(old(blocks), old(inodes), blocks, inodes, n, nb)
      ensures r.Some? && bn == nb ==> r.value !in old(owner)
      ensures r.Some? && bn == nb ==> logged == old(logged) + NewLogs(bn, r.value, inodes[n].addrs[NDIRECT])
      ensures r.Some? && bn == nb ==> Allocs(old(bm.bits), bm.bits, SlotsFor(nb + 1) - SlotsFor(nb))
      ensures r.Some? && bn == nb ==>
                Fresh(old(bm.bits), bm.bits) == NewBlocks(bn, r.value, inodes[n].addrs[NDIRECT])
      ensures r.Some? ==> OwnerKept(old(owner), owner) && r.value in owner && owner[r.value] == (n, Slot(bn))
      ensures r.None? ==> Full() && |FreeOf(old(bm.bits))| < SlotsFor(nb + 1) - SlotsFor(nb)
    {
      var addr := inodes[n].addrs[bn];
      assert Ref(blocks, inodes[n], bn) == addr;
      if addr != 0 {
        return Some(addr);
      }
      r := FillAddr(n, bn);
      if r.Some? {
        GrownOnce(old(blocks), old(inodes), old(owner), blocks, inodes, owner, n, bn, r.value);
        ExtentMore(old(blocks), old(inodes)[n], blocks, inodes[n], bn, r.value);
        GrownOthers(old(blocks), old(inodes), old(owner), blocks, inodes, owner, dinodes, n);
        GrownFiles(nmeta, old(bm.bits), old(blocks), old(inodes), old(owner), blocks, inodes, owner, dinodes, n, nb);
      }
    }

    /** The indirect block's address, allocating the block if the inode has none. */
    method IndirectBlock(n: nat) returns (r: Option<nat>)
      requires bm.Valid() && bm.size == |blocks| && OwnerOk(nmeta, bm.bits, blocks, inodes, owner) && n < |inodes|
      modifies this`blocks, this`inodes, this`owner, this`logged, bm
      ensures old(inodes[n].addrs[NDIRECT]) != 0 ==>
                r.Some? && blocks == old(blocks) && inodes == old(inodes)
                && owner == old(owner) && logged == old(logged) && bm.bits == old(bm.bits)
      ensures r.Some? ==> bm.Valid() && bm.size == |blocks| && OwnerOk(nmeta, bm.bits, blocks, inodes, owner)
      ensures r.Some? ==> Grown(old(blocks), old(inodes), old(owner), blocks, inodes, owner, n)
      ensures r.Some? ==> 0 < r.value < |blocks| && inodes[n].addrs[NDIRECT] == r.value
      ensures r.Some? ==> forall i :: 0 <= i < SLOTS && i != NDIRECT
                            ==> Ref(blocks, inodes[n], i) == Ref(old(blocks), old(inodes)[n], i)
      ensures r.Some? && old(inodes[n].addrs[NDIRECT]) == 0 ==> logged == old(logged) + {BBlock(r.value), r.value}
      ensures r.Some? && old(inodes[n].addrs[NDIRECT]) == 0 ==>
                Allocs(old(bm.bits), bm.bits, 1) && Fresh(old(bm.bits), bm.bits) == {r.value}
      ensures r.None? ==> Full() && |FreeOf(old(bm.bits))| < 1
    {
      GrownNot(blocks, inodes, owner, n);
      var ind := inodes[n].addrs[NDIRECT];
      assert Ref(blocks, inodes[n], NDIRECT) == ind;
      if ind != 0 {
        return Some(ind);
      }
      r := FillAddr(n, NDIRECT);
      if r.Some? {
        GrownOnce(old(blocks), old(inodes), old(owner), blocks, inodes, owner, n, NDIRECT, r.value);
      }
    }

    method BmapIndirect(n: nat, j: nat, ghost nb: nat) returns (r: Option<nat>)
      requires Consistent(n, nb) && j < NINDIRECT && NDIRECT + j <= nb
      modifies this`blocks, this`inodes, this`owner, this`logged, bm
      ensures NDIRECT + j < nb ==> r.Some? && blocks == old(blocks) && inodes == old(inodes) && owner == old(owner)
                                            && logged == old(logged) && bm.bits == old(bm.bits)
      ensures r.Some? ==> Consistent(n, if NDIRECT + j < nb then nb else nb + 1)
      ensures r.Some? ==> 0 < r.value < |blocks| && r.value == FileBlk(blocks, inodes[n], NDIRECT + j)
      ensures r.Some? ==> FilesKept(old(blocks), old(inodes), blocks, inodes, n, nb)
      ensures r.Some? && NDIRECT + j == nb ==> r.value !in old(owner)
      ensures r.Some? && NDIRECT + j == nb ==>
                logged == old(logged) + NewLogs(NDIRECT + j, r.value, inodes[n].addrs[NDIRECT])
      ensures r.Some? && NDIRECT + j == nb ==> Allocs(old(bm.bits), bm.bits, SlotsFor(nb + 1) - SlotsFor(nb))
      ensures r.Some? && NDIRECT + j == nb ==>
                Fresh(old(bm.bits), bm.bits) == NewBlocks(NDIRECT + j, r.value, inodes[n].addrs[NDIRECT])
      ensures r.Some? ==> OwnerKept(old(owner), owner) && r.value in owner && owner[r.value] == (n, Slot(NDIRECT + j))
      ensures r.None? ==> Full() && |FreeOf(old(bm.bits))| < SlotsFor(nb + 1) - SlotsFor(nb)
    {
      hide OwnerOk, OthersOk, FilledBy, Grown, FilesKept, Extent, Allocs, Fresh, FreeOf, OwnerKept;
      RefOwned(nmeta, bm.bits, blocks, inodes, owner, n, NDIRECT + 1 + j);
      BlockThere(blocks, inodes[n], NDIRECT + j, nb);
      FilesRefl(blocks, inodes, dinodes, n, nb);
      var p := IndirectBlock(n);
      if p.None? {
        return None;
      }
      ghost var blocks1, inodes1, owner1, bits1 := blocks, inodes, owner, bm.bits;
      var ind := p.value;
      assert Ref(blocks, inodes[n], NDIRECT + 1 + j) == FileBlk(old(blocks), old(inodes)[n], NDIRECT + j);
      var addr := Word(blocks[ind], j);
      assert Ref(blocks, inodes[n], NDIRECT + 1 + j) == addr;
      if addr != 0 {
        return Some(addr);
      }
      r := FillEntry(n, j);
      if old(inodes[n].addrs[NDIRECT]) == 0 {
        AllocsThen(old(bm.bits), bits1, 1, 1);
      }
      if r.Some? {
        EntryGrowth(nmeta, old(bm.bits), old(blocks), old(inodes), old(owner), blocks1, inodes1, owner1,
                    blocks, inodes, owner, dinodes, n, j, r.value);
      }
    }

    /** One turn of writei's loop: the bytes that fall into one block. */
    method WriteBlock(n: nat, off: nat, data: seq<Byte>, ghost nb: nat) returns (ok: bool, addr: nat)
      requires Consistent(n, nb) && off / BSIZE <= nb && off / BSIZE < MAXFILE && off % BSIZE + |data| <= BSIZE
      modifies this`blocks, this`inodes, this`owner, this`logged, bm
      ensures ok ==> Consistent(n, Max(nb, off / BSIZE + 1))
      ensures ok ==> BytesWritten(old(blocks), old(inodes)[n], blocks, inodes[n], nb, off, data)
      ensures ok ==> OthersSame(old(blocks), old(inodes), blocks, inodes, n)
      ensures ok ==> inodes[n] == old(inodes[n]).(addrs := inodes[n].addrs)
      ensures ok && off / BSIZE < nb ==> inodes == old(inodes)
      ensures ok && old(inodes[n].addrs[NDIRECT]) != 0 ==> inodes[n].addrs[NDIRECT] == old(inodes[n].addrs[NDIRECT])
      ensures ok ==> logged == old(logged) + {addr}
                       + (if off / BSIZE < nb then {} else NewLogs(off / BSIZE, addr, inodes[n].addrs[NDIRECT]))
      ensures ok ==> Taken(old(bm.bits), bm.bits, off / BSIZE, nb, addr, inodes[n].addrs[NDIRECT])
      ensures ok ==> OwnerKept(old(owner), owner) && addr in owner && owner[addr] == (n, Slot(off / BSIZE))
      ensures !ok ==> Full() && off / BSIZE == nb && |FreeOf(old(bm.bits))| < SlotsFor(nb + 1) - SlotsFor(nb)
    {
      hide Allocs, Fresh, FreeOf, SlotsFor, OwnerKept, OwnerOk, OthersOk, Extent, BytesWritten, OthersSame, LogSet;
      hide NewBlocks;
      var bn := off / BSIZE;
      AllocsNone(bm.bits);
      var r := Bmap(n, bn, nb);
      if r.None? {
        return false, 0;
      }
      addr := r.value;
      WriteEffect(nmeta, bm.bits, old(blocks), old(inodes), blocks, inodes, owner, dinodes, n, nb, off, data);
      blocks := blocks[addr := Patch(blocks[addr], off % BSIZE, data)];
      logged := logged + {addr};
      ok := true;
    }

    /** writei: splice src into the file at off0.  A write inside the file or just at its end
        succeeds if there are blocks for it; nothing changes on an error. */
    method WriteI(n: nat, off0: nat, src: seq<Byte>) returns (r: IoResult)
      requires Valid(n) && off0 < UINT && |src| < UINT
      modifies this, bm
      ensures r.Err? <==> off0 > old(inodes[n].size) || off0 + |src| >= UINT || off0 + |src| > MAXFILE * BSIZE
      ensures r.Err? ==> blocks == old(blocks) && inodes == old(inodes) && dinodes == old(dinodes)
                         && bm.bits == old(bm.bits) && logged == old(logged) && owner == old(owner) && bm.Valid()
      ensures r.Ok? ==> r.n == |src| && Valid(n)
      ensures r.Ok? ==> Contents(blocks, inodes[n]) == Splice(old(Contents(blocks, inodes[n])), off0, src)
      ensures r.Ok? ==> OthersSame(old(blocks), old(inodes), blocks, inodes, n)
      ensures r.Ok? && |src| <= CHUNK ==> |logged - old(logged)| <= LOGSIZE
      ensures r.Ok? && |src| <= 3 * BSIZE ==> |logged - old(logged)| <= MAXOPBLOCKS
      ensures r.Ok? && old(logged) == {} && LaidOut(nmeta, inodestart, bmapstart, |old(blocks)|, |old(inodes)|) ==>
                |logged| == WriteCost(bmapstart, old(bm.bits), old(inodes[n].size), off0, |src|)
      ensures r.Panic? ==> Full()
      ensures !r.Err? ==> (r.Panic? <==> |FreeOf(old(bm.bits))| < NewSlots(old(inodes[n].size), off0 + |src|))
      ensures r.Ok? ==>
                inodes[n] == old(inodes[n]).(size := Max(old(inodes[n].size), off0 + |src|), addrs := inodes[n].addrs)
      ensures r.Ok? && off0 + |src| <= old(inodes[n].size) ==> inodes == old(inodes)
    {
      hide OwnerOk, OthersOk, OthersSame, Extent, FreeOf, WriteCost, LaidOut, NewSlots, Contents, Splice, BlocksFor;
      if off0 > inodes[n].size || off0 + |src| >= UINT {
        return Err;
      }
      if off0 + |src| > MAXFILE * BSIZE {
        return Err;
      }
      var ok := WriteData(n, off0, src);
      r := if ok then IoResult.Ok(|src|) else Panic;
    }

    /** writei behind its range tests. */
    method WriteData(n: nat, off0: nat, src: seq<Byte>) returns (ok: bool)
      requires Valid(n) && off0 <= inodes[n].size && off0 + |src| <= MAXFILE * BSIZE
      modifies this, bm
      ensures ok ==> Valid(n) && OthersSame(old(blocks), old(inodes), blocks, inodes, n)
      ensures ok ==> Contents(blocks, inodes[n]) == Splice(old(Contents(blocks, inodes[n])), off0, src)
      ensures ok ==>
                inodes[n] == old(inodes[n]).(size := Max(old(inodes[n].size), off0 + |src|), addrs := inodes[n].addrs)
      ensures ok && off0 + |src| <= old(inodes[n].size) ==> inodes == old(inodes)
      ensures ok ==> Counted(old(logged), logged, |src|,
                             LaidOut(nmeta, inodestart, bmapstart, |old(blocks)|, |old(inodes)|),
                             WriteCost(bmapstart, old(bm.bits), old(inodes[n].size), off0, |src|))
      ensures !ok ==> Full()
      ensures ok <==> |FreeOf(old(bm.bits))| >= NewSlots(old(inodes[n].size), off0 + |src|)
    {
      hide OwnerOk, OthersOk, ByteAt, BytesWritten, OthersSame, Account, FreeOf, WriteCost, LaidOut, Extent, NewSlots;
      hide Contents, Splice, BlocksFor, Counted;
      ghost var size0, bits0, logged0, off := inodes[n].size, bm.bits, logged, off0 + |src|;
      ghost var data;
      ok, data := CopyIn(n, off0, src);
      if !ok {
        return;
      }
      ghost var ip1 := inodes[n];
      OthersLength(old(blocks), old(inodes), blocks, inodes, n);
      LogSize(nmeta, inodestart, bmapstart, blocks, inodes, n, data, owner, off0, off, size0, bits0, bm.bits, logged0,
              logged, IBlock(n));
      if |src| > 0 && off0 + |src| > inodes[n].size {
        Lengthen(n, off0 + |src|, old(blocks), old(inodes));
      }
      BytesSplice(old(blocks), old(inodes)[n], blocks, ip1, inodes[n], off0, src);
    }

    /** writei's loop: copy src into the file's blocks, allocating as it goes past the end.  `data` are
        the data blocks it writes. */
    method CopyIn(n: nat, off0: nat, src: seq<Byte>) returns (ok: bool, ghost data: set<nat>)
      requires n < |inodes| && Consistent(n, BlocksFor(inodes[n].size))
      requires off0 <= inodes[n].size && off0 + |src| <= MAXFILE * BSIZE
      modifies this`blocks, this`inodes, this`owner, this`logged, bm
      ensures ok ==> Consistent(n, BlocksFor(Max(old(inodes[n].size), off0 + |src|)))
      ensures ok ==> inodes[n] == old(inodes[n]).(addrs := inodes[n].addrs) && |blocks| == |old(blocks)|
      ensures ok ==> BytesWritten(old(blocks), old(inodes)[n], blocks, inodes[n], BlocksFor(inodes[n].size), off0, src)
      ensures ok ==> OthersSame(old(blocks), old(inodes), blocks, inodes, n)
      ensures ok && off0 + |src| <= inodes[n].size ==> inodes == old(inodes)
      ensures ok ==> Account(bmapstart, data, inodes[n], owner, n, off0, off0 + |src|, BlocksFor(inodes[n].size),
                             BlocksFor(Max(inodes[n].size, off0 + |src|)), old(bm.bits), bm.bits, old(logged), logged)
      ensures !ok ==> Full() && |FreeOf(old(bm.bits))| < NewSlots(old(inodes[n].size), off0 + |src|)
    {
      hide OwnerOk, OthersOk, ByteAt, BlocksFor, BytesWritten, OthersSame, Extent, Account, FreeOf, SlotsFor;
      ghost var size0, nb, bits0 := inodes[n].size, BlocksFor(inodes[n].size), bm.bits;
      ghost var nb0 := nb;
      OthersRefl(blocks, inodes, dinodes, n);
      IndirectThere(blocks, inodes[n], nb);
      BytesNone(blocks, inodes[n], nb, off0);
      assert src[..0] == [];
      var tot, off := 0, off0;
      data := {};
      AccountNone(bmapstart, inodes[n], owner, n, off0, nb, bits0, logged);
      while tot < |src|
        invariant 0 <= tot <= |src| && off == off0 + tot
        invariant Aligned(off0, off) || tot == |src|
        invariant nb0 <= nb == BlocksFor(Max(size0, off))
        invariant Consistent(n, nb) && inodes[n].size == size0 && |inodes[n].addrs| == NDIRECT + 1
        invariant inodes[n] == old(inodes[n]).(addrs := inodes[n].addrs)
        invariant |blocks| == |old(blocks)|
        invariant BytesWritten(old(blocks), old(inodes)[n], blocks, inodes[n], nb0, off0, src[..tot])
        invariant OthersSame(old(blocks), old(inodes), blocks, inodes, n)
        invariant off <= size0 ==> inodes == old(inodes)
        invariant Account(bmapstart, data, inodes[n], owner, n, off0, off, nb0, nb, bits0, bm.bits, old(logged), logged)
      {
        var m := Piece(|src| - tot, off);
        NextPiece(off0, off, m, size0, |src| - tot);
        ghost var blocks1, inodes1, nb1 := blocks, inodes, nb;
        ok, data := CopyBlock(n, off0, off, src[tot..tot + m], nb0, nb, data, bits0, old(logged));
        if !ok {
          LaterBlocks(nb0, off / BSIZE, size0, off0 + |src|, off);
          return;
        }
        IndirectThere(blocks, inodes[n], Max(nb, off / BSIZE + 1));
        BytesCompose(old(blocks), old(inodes)[n], blocks1, inodes1[n], blocks, inodes[n], nb0, nb1, off0, src, tot, m);
        OthersTrans(old(blocks), old(inodes), blocks1, inodes1, blocks, inodes, n);
        tot, off, nb := tot + m, off + m, Max(nb, off / BSIZE + 1);
      }
      assert src[..tot] == src;
      ok := true;
    }

    /** One turn of the loop, with the account of what it logs and allocates. */
    method CopyBlock(n: nat, ghost off0: nat, off: nat, piece: seq<Byte>, ghost nb0: nat, ghost nb: nat,
                     ghost data: set<nat>, ghost bits0: seq<bool>, ghost base: set<nat>)
      returns (ok: bool, ghost data': set<nat>)
      requires Consistent(n, nb) && off0 <= off && off / BSIZE <= nb && off / BSIZE < MAXFILE && nb0 <= nb
      requires 0 < |piece| && off % BSIZE + |piece| <= BSIZE && Aligned(off0, off)
      requires Account(bmapstart, data, inodes[n], owner, n, off0, off, nb0, nb, bits0, bm.bits, base, logged)
      modifies this`blocks, this`inodes, this`owner, this`logged, bm
      ensures ok ==> Consistent(n, Max(nb, off / BSIZE + 1)) && |blocks| == |old(blocks)|
      ensures ok ==> BytesWritten(old(blocks), old(inodes)[n], blocks, inodes[n], nb, off, piece)
      ensures ok ==> OthersSame(old(blocks), old(inodes), blocks, inodes, n)
      ensures ok ==> inodes[n] == old(inodes[n]).(addrs := inodes[n].addrs)
      ensures ok && off / BSIZE < nb ==> inodes == old(inodes)
      ensures ok ==> Account(bmapstart, data', inodes[n], owner, n, off0, off + |piece|, nb0, Max(nb, off / BSIZE + 1),
                             bits0, bm.bits, base, logged)
      ensures !ok ==> Full() && off / BSIZE == nb && |FreeOf(bits0)| < SlotsFor(nb + 1) - SlotsFor(nb0)
    {
      hide OwnerOk, OthersOk, ByteAt, BytesWritten, OthersSame, Extent, Account, FreeOf, LogSet, Taken, OwnerKept;
      hide SlotsFor;
      IndirectThere(blocks, inodes[n], nb);
      ghost var bits1, owner1, ip1, logged1 := bm.bits, owner, inodes[n], logged;
      AccountShort(bmapstart, data, ip1, owner, n, off0, off, nb0, nb, bits0, bits1, base, logged);
      var addr;
      ok, addr := WriteBlock(n, off, piece, nb);
      data' := data;
      if ok {
        IndirectThere(blocks, inodes[n], Max(nb, off / BSIZE + 1));
        data' := data + {addr};
        AccountNext(bmapstart, data, ip1, inodes[n], owner1, owner, n, off0, off, |piece|, nb0, nb, bits0, bits1,
                    bm.bits, base, logged1, logged, addr);
      }
    }

    /** The end of writei when the file has become longer: the new size, in memory and on disk. */
    method Lengthen(n: nat, off: nat, ghost blocks0: seq<Block>, ghost inodes0: seq<Inode>)
      requires Consistent(n, BlocksFor(off)) && OthersSame(blocks0, inodes0, blocks, inodes, n)
      modifies this`inodes, this`dinodes, this`logged
      ensures Valid(n) && OthersSame(blocks0, inodes0, blocks, inodes, n)
      ensures inodes == old(inodes)[n := old(inodes[n]).(size := off)] && logged == old(logged) + {IBlock(n)}
    {
      hide OwnerOk, OthersOk, OthersSame, Extent, BlocksFor;
      ghost var inodes1, dinodes1 := inodes, dinodes;
      Resized(nmeta, bm.bits, blocks, inodes1, owner, dinodes1, n, off, blocks0, inodes0);
      inodes := inodes[n := inodes[n].(size := off)];
      IUpdate(n);
    }

    /** iupdate: copy the in-memory inode to disk. */
    method IUpdate(n: nat)
      requires n < |inodes| == |dinodes|
      modifies this`dinodes, this`logged
      ensures dinodes == old(dinodes)[n := inodes[n]] && logged == old(logged) + {IBlock(n)}
    {
      dinodes := dinodes[n := inodes[n]];
      logged := logged + {IBlock(n)};
    }

    /** bmap inside the file. */
    method Lookup(n: nat, bn: nat, ghost nb: nat) returns (b: nat)
      requires Consistent(n, nb) && bn < nb && bn < MAXFILE
      modifies this`blocks, this`inodes, this`owner, this`logged, bm
      ensures blocks == old(blocks) && inodes == old(inodes) && owner == old(owner) && logged == old(logged)
      ensures bm.bits == old(bm.bits) && Consistent(n, nb) && 0 < b < |blocks| && b == FileBlk(blocks, inodes[n], bn)
    {
      hide OwnerOk, OthersOk, Extent, FilesKept, OwnerKept;
      var r := Bmap(n, bn, nb);
      b := r.value;
    }

    /** readi: the bytes from off0 on, as many as asked for and as there are.  Reading changes
        nothing, because every block of the file is there. */
    method ReadI(n: nat, off0: nat, cnt0: nat) returns (r: IoResult, dst: seq<Byte>)
      requires Valid(n) && off0 < UINT && cnt0 < UINT
      modifies this`blocks, this`inodes, this`owner, this`logged, bm
      ensures r.Err? <==> off0 > old(inodes[n].size) || off0 + cnt0 >= UINT
      ensures !r.Panic?
      ensures blocks == old(blocks) && inodes == old(inodes) && owner == old(owner) && logged == old(logged)
              && bm.bits == old(bm.bits) && Valid(n)
      ensures r.Ok? ==> dst == Contents(blocks, inodes[n])[off0..Min(off0 + cnt0, inodes[n].size)] && r.n == |dst|
    {
      hide OwnerOk, OthersOk;
      dst := [];
      if off0 > inodes[n].size || off0 + cnt0 >= UINT {
        return Err, dst;
      }
      var cnt := if off0 + cnt0 > inodes[n].size then inodes[n].size - off0 else cnt0;
      ghost var size, nb := inodes[n].size, BlocksFor(inodes[n].size);
      var tot, off := 0, off0;
      while tot < cnt
        invariant 0 <= tot <= cnt && off == off0 + tot
        invariant blocks == old(blocks) && inodes == old(inodes) && owner == old(owner) && logged == old(logged)
        invariant bm.bits == old(bm.bits) && Consistent(n, nb)
        invariant dst == Contents(blocks, inodes[n])[off0..off]
      {
        var m := Piece(cnt - tot, off);
        InFile(off, size);
        assert off / BSIZE < MAXFILE;
        var b := Lookup(n, off / BSIZE, nb);
        var data := blocks[b][off % BSIZE..off % BSIZE + m];
        BlockBytes(blocks, inodes[n], off, m, data);
        dst := dst + data;
        tot, off := tot + m, off + m;
      }
      r := IoResult.Ok(cnt);
    }

    /** filewrite on an inode: the data goes in as transactions of at most CHUNK bytes.  `sizes` lists
        how many distinct blocks each of them logged. */
    method FileWrite(n: nat, off0: nat, src: seq<Byte>) returns (r: IoResult, off: nat, ghost sizes: seq<nat>)
      requires Valid(n) && off0 + |src| < UINT
      modifies this, bm
      ensures !r.Panic? ==> Valid(n) && OthersSame(old(blocks), old(inodes), blocks, inodes, n)
      ensures !r.Panic? ==> inodes[n] == old(inodes[n]).(size := inodes[n].size, addrs := inodes[n].addrs)
      ensures forall k :: 0 <= k < |sizes| ==> sizes[k] <= LOGSIZE
      ensures |src| <= 3 * BSIZE ==> forall k :: 0 <= k < |sizes| ==> sizes[k] <= MAXOPBLOCKS
      ensures r.Ok? ==> r.n == |src| && off == off0 + |src|
      ensures r.Ok? && |src| > 0 ==>
                off0 <= old(inodes[n].size)
                && Contents(blocks, inodes[n]) == Splice(old(Contents(blocks, inodes[n])), off0, src)
      ensures r.Err? ==> off0 <= off < off0 + |src|
      ensures r.Err? && off > off0 ==>
                off0 <= old(inodes[n].size)
                && Contents(blocks, inodes[n]) == Splice(old(Contents(blocks, inodes[n])), off0, src[..off - off0])
      ensures r.Err? && off == off0 ==> blocks == old(blocks) && inodes == old(inodes)
      ensures r.Panic? ==> Full()
      ensures !r.Panic? ==> (r.Err? <==> |src| > 0 && (off0 > old(inodes[n].size) || off0 + |src| > MAXFILE * BSIZE))
    {
      hide OwnerOk, OthersOk, OthersSame, ByteAt, Extent, BlocksFor, Splice;
      IndirectThere(blocks, inodes[n], BlocksFor(inodes[n].size));
      sizes := [];
      off := off0;
      var i := 0;
      OthersRefl(blocks, inodes, dinodes, n);
      while i < |src|
        invariant 0 <= i <= |src| && off == off0 + i
        invariant Valid(n) && OthersSame(old(blocks), old(inodes), blocks, inodes, n)
        invariant |inodes[n].addrs| == |old(inodes)[n].addrs| == NDIRECT + 1
        invariant inodes[n] == old(inodes[n]).(size := inodes[n].size, addrs := inodes[n].addrs)
        invariant forall k :: 0 <= k < |sizes| ==> sizes[k] <= LOGSIZE
        invariant |src| <= 3 * BSIZE ==> forall k :: 0 <= k < |sizes| ==> sizes[k] <= MAXOPBLOCKS
        invariant i == 0 ==> blocks == old(blocks) && inodes == old(inodes)
        invariant i > 0 ==> off <= inodes[n].size && off <= MAXFILE * BSIZE
        invariant i > 0 ==> off0 <= old(inodes[n].size)
                            && Contents(blocks, inodes[n]) == Splice(old(Contents(blocks, inodes[n])), off0, src[..i])
      {
        var n1 := Min(|src| - i, CHUNK);
        ghost var blocks1, inodes1 := blocks, inodes;
        logged := {};
        r := WriteI(n, off, src[i..i + n1]);
        if r.Panic? {
          return;
        }
        sizes := sizes + [|logged|];
        if r.Err? {
          return;
        }
        IndirectThere(blocks, inodes[n], BlocksFor(inodes[n].size));
        OthersTrans(old(blocks), old(inodes), blocks1, inodes1, blocks, inodes, n);
        SpliceTwice(old(blocks), old(inodes)[n], blocks1, inodes1[n], off0, src, i, n1);
        i, off := i + n1, off + n1;
      }
      assert src[..i] == src;
      r := IoResult.Ok(|src|);
    }

    /** Free the block in a direct slot and clear the slot. */
    method DropAddr(n: nat, k: nat) returns (ok: bool)
      requires bm.Valid() && bm.size == |blocks| && OwnerOk(nmeta, bm.bits, blocks, inodes, owner)
      requires n < |inodes| && k < NDIRECT
      modifies this`inodes, this`owner, this`logged, bm
      ensures ok && bm.Valid() && OwnerOk(nmeta, bm.bits, blocks, inodes, owner)
      ensures inodes == old(inodes)[n := old(inodes[n]).(addrs := old(inodes[n].addrs)[k := 0])]
      ensures OwnerLess(old(owner), owner, n, k)
    {
      ok := true;
      var b := inodes[n].addrs[k];
      assert Ref(blocks, inodes[n], k) == b;
      SlotOwner(nmeta, bm.bits, blocks, inodes, owner, n, k);
      if b != 0 {
        ok := bm.Bfree(b);
        logged := logged + {BBlock(b)};
        inodes := inodes[n := inodes[n].(addrs := inodes[n].addrs[k := 0])];
        ClearDirect(nmeta, old(bm.bits), blocks, old(inodes), owner, n, k);
        OwnerDrop(nmeta, old(bm.bits), blocks, old(inodes), owner, blocks, inodes, n, k, b);
        owner := owner - {b};
      } else {
        assert inodes[n].addrs[k := 0] == inodes[n].addrs;
      }
    }

    /** Free the block in entry j of the indirect block.  The entry itself is left; `vb` is the disk as
        it would be with the entries seen so far cleared. */
    method DropEntry(n: nat, j: nat, ghost vb: seq<Block>) returns (ok: bool, ghost vb': seq<Block>)
      requires bm.Valid() && bm.size == |blocks| && OwnerOk(nmeta, bm.bits, vb, inodes, owner)
      requires n < |inodes| && j < NINDIRECT && 0 < inodes[n].addrs[NDIRECT] < |blocks| == |vb|
      requires Word(blocks[inodes[n].addrs[NDIRECT]], j) == Word(vb[inodes[n].addrs[NDIRECT]], j)
      modifies this`owner, this`logged, bm
      ensures ok && bm.Valid() && OwnerOk(nmeta, bm.bits, vb', inodes, owner)
      ensures vb' == vb[inodes[n].addrs[NDIRECT] := SetWord(vb[inodes[n].addrs[NDIRECT]], j, 0)]
      ensures OwnerLess(old(owner), owner, n, NDIRECT + 1 + j)
    {
      ok := true;
      ghost var ind, k := inodes[n].addrs[NDIRECT], NDIRECT + 1 + j;
      vb' := vb[ind := SetWord(vb[ind], j, 0)];
      var b := Word(blocks[inodes[n].addrs[NDIRECT]], j);
      assert Ref(vb, inodes[n], k) == b;
      SlotOwner(nmeta, bm.bits, vb, inodes, owner, n, k);
      ClearEntry(nmeta, bm.bits, vb, inodes, owner, n, j);
      if b != 0 {
        ok := bm.Bfree(b);
        logged := logged + {BBlock(b)};
        OwnerDrop(nmeta, old(bm.bits), vb, inodes, owner, vb', inodes, n, k, b);
        owner := owner - {b};
      } else {
        OwnerSame(nmeta, bm.bits, vb, inodes, owner, vb');
      }
    }

    /** itrunc: give back every block of inode n, and no other; bfree never finds a block free. */
    method Itrunc(n: nat) returns (ok: bool)
      requires Valid(n)
      modifies this, bm
      ensures ok && Valid(n)
      ensures inodes == old(inodes)[n := old(inodes[n]).(size := 0, addrs := seq(NDIRECT + 1, i => 0))]
      ensures blocks == old(blocks)
      ensures OwnerWithout(old(owner), owner, n)
      ensures OthersSame(old(blocks), old(inodes), blocks, inodes, n)
    {
      hide OwnerOk, OthersOk, Extent, OthersSame;
      IndirectOwner(nmeta, bm.bits, blocks, inodes, owner, n);
      ghost var gone: set<nat> := {};
      var i := 0;
      while i < NDIRECT
        invariant 0 <= i <= NDIRECT && blocks == old(blocks) && dinodes == old(dinodes)
        invariant bm.Valid() && bm.size == |blocks| && OwnerOk(nmeta, bm.bits, blocks, inodes, owner)
        invariant |inodes| == |old(inodes)| && |inodes[n].addrs| == NDIRECT + 1
        invariant inodes == old(inodes)[n := old(inodes[n]).(addrs := inodes[n].addrs)]
        invariant forall k :: 0 <= k < i ==> inodes[n].addrs[k] == 0
        invariant inodes[n].addrs[NDIRECT] == old(inodes[n].addrs[NDIRECT])
        invariant OwnerGone(old(owner), owner, n, gone) && forall k :: k in gone <==> 0 <= k < i
      {
        ghost var owner1 := owner;
        ok := DropAddr(n, i);
        GoneMore(old(owner), owner1, owner, n, gone, i);
        gone := gone + {i};
        i := i + 1;
      }
      DropIndirect(n, old(blocks), old(owner), gone);
      ghost var inodes1 := inodes;
      inodes := inodes[n := inodes[n].(size := 0)];
      Emptied(nmeta, bm.bits, blocks, old(inodes), inodes1, owner, dinodes, n);
      IUpdate(n);
      assert inodes[n].addrs == seq(NDIRECT + 1, i => 0);
      ok := true;
    }

    /** The second half of itrunc: the blocks listed in the indirect block, and that block. */
    method DropIndirect(n: nat, ghost blocks0: seq<Block>, ghost owner0: map<nat, (nat, nat)>, ghost gone0: set<nat>)
      requires bm.Valid() && bm.size == |blocks| && OwnerOk(nmeta, bm.bits, blocks, inodes, owner)
      requires n < |inodes| && |inodes[n].addrs| == NDIRECT + 1
      requires OwnerGone(owner0, owner, n, gone0) && forall k :: k in gone0 <==> 0 <= k < NDIRECT
      requires forall b :: b in owner0 ==> owner0[b].1 < SLOTS
      modifies this`inodes, this`owner, this`logged, bm
      ensures bm.Valid() && OwnerOk(nmeta, bm.bits, blocks, inodes, owner)
      ensures inodes == old(inodes)[n := old(inodes[n]).(addrs := old(inodes[n].addrs)[NDIRECT := 0])]
      ensures OwnerWithout(owner0, owner, n)
    {
      hide OwnerOk, OwnerGone;
      ghost var gone: set<nat> := gone0;
      var ind := inodes[n].addrs[NDIRECT];
      IndirectOwner(nmeta, bm.bits, blocks, inodes, owner, n);
      ghost var vb := blocks;
      if ind != 0 {
        var j := 0;
        while j < NINDIRECT
          invariant 0 <= j <= NINDIRECT && inodes == old(inodes)
          invariant bm.Valid() && bm.size == |blocks| && OwnerOk(nmeta, bm.bits, vb, inodes, owner)
          invariant |vb| == |blocks| && vb == blocks[ind := vb[ind]]
          invariant forall q :: 0 <= q < NINDIRECT ==> Word(vb[ind], q) == if q < j then 0 else Word(blocks[ind], q)
          invariant OwnerGone(owner0, owner, n, gone)
          invariant forall k :: k in gone <==> 0 <= k < NDIRECT || NDIRECT < k < NDIRECT + 1 + j
        {
          ghost var vb1, owner1 := vb, owner;
          var ok;
          ok, vb := DropEntry(n, j, vb);
          forall q | 0 <= q < NINDIRECT ensures Word(vb[ind], q) == if q < j + 1 then 0 else Word(blocks[ind], q) {
            SetWordAt(vb1[ind], j, 0, q);
          }
          GoneMore(owner0, owner1, owner, n, gone, NDIRECT + 1 + j);
          gone := gone + {NDIRECT + 1 + j};
          j := j + 1;
        }
        ghost var owner1, bits1 := owner, bm.bits;
        IndirectOwner(nmeta, bm.bits, vb, inodes, owner, n);
        var ok := bm.Bfree(ind);
        logged := logged + {BBlock(ind)};
        inodes := inodes[n := inodes[n].(addrs := inodes[n].addrs[NDIRECT := 0])];
        DropPointer(nmeta, bits1, vb, old(inodes), owner, blocks, n);
        owner := owner - {ind};
        GoneMore(owner0, owner1, owner, n, gone, NDIRECT);
        gone := gone + {NDIRECT};
        GoneAll(owner0, owner, n, gone);
      } else {
        EntriesEmpty(nmeta, bm.bits, blocks, inodes, owner, owner0, n, gone);
        assert inodes[n].addrs == old(inodes[n].addrs)[NDIRECT := 0];
      }
    }
  }

  // ---- Taking blocks away ----

  /** owner loses exactly the block of slot (n, k), if it had one. */
  ghost predicate OwnerLess(owner: map<nat, (nat, nat)>, owner': map<nat, (nat, nat)>, n: nat, k: nat) {
    && (forall b :: b in owner' <==> b in owner && owner[b] != (n, k))
    && (forall b :: b in owner' ==> owner'[b] == owner[b])
  }

  /** owner has lost exactly the blocks of inode n's slots in gone. */
  ghost predicate OwnerGone(owner: map<nat, (nat, nat)>, owner': map<nat, (nat, nat)>, n: nat, gone: set<nat>) {
    && (forall b :: b in owner' <==> b in owner && !(owner[b].0 == n && owner[b].1 in gone))
    && (forall b :: b in owner' ==> owner'[b] == owner[b])
  }

  /** owner has lost exactly the blocks of inode n. */
  ghost predicate OwnerWithout(owner: map<nat, (nat, nat)>, owner': map<nat, (nat, nat)>, n: nat) {
    && (forall b :: b in owner' <==> b in owner && owner[b].0 != n)
    && (forall b :: b in owner' ==> owner'[b] == owner[b])
  }

  lemma GoneMore(owner0: map<nat, (nat, nat)>, owner1: map<nat, (nat, nat)>, owner2: map<nat, (nat, nat)>, n: nat,
                 gone: set<nat>, k: nat)
    requires OwnerGone(owner0, owner1, n, gone) && OwnerLess(owner1, owner2, n, k)
    ensures OwnerGone(owner0, owner2, n, gone + {k})
  {
  }

  lemma GoneAll(owner0: map<nat, (nat, nat)>, owner: map<nat, (nat, nat)>, n: nat, gone: set<nat>)
    requires OwnerGone(owner0, owner, n, gone)
    requires forall b :: b in owner0 ==> owner0[b].1 < SLOTS
    requires forall k :: 0 <= k < SLOTS ==> k in gone
    ensures OwnerWithout(owner0, owner, n)
  {
  }

  /** The block in a slot is marked in use and owned by that slot; an empty slot owns nothing. */
  lemma SlotOwner(nmeta: nat, bits: seq<bool>, blocks: seq<Block>, inodes: seq<Inode>, owner: map<nat, (nat, nat)>,
                  n: nat, k: nat)
    requires OwnerOk(nmeta, bits, blocks, inodes, owner) && n < |inodes| && k < SLOTS
    ensures var b := Ref(blocks, inodes[n], k);
            if b == 0 then OwnerLess(owner, owner, n, k)
            else b < |bits| && bits[b] && OwnerLess(owner, owner - {b}, n, k)
  {
    forall c | c in owner && owner[c] == (n, k) ensures c == Ref(blocks, inodes[n], k) {
    }
  }

  lemma IndirectOwner(nmeta: nat, bits: seq<bool>, blocks: seq<Block>, inodes: seq<Inode>,
                      owner: map<nat, (nat, nat)>, n: nat)
    requires OwnerOk(nmeta, bits, blocks, inodes, owner) && n < |inodes|
    ensures |inodes[n].addrs| == NDIRECT + 1
    ensures var b := inodes[n].addrs[NDIRECT];
            b != 0 ==> b < |blocks| && b < |bits| && bits[b] && OwnerLess(owner, owner - {b}, n, NDIRECT)
    ensures forall b :: b in owner ==> owner[b].1 < SLOTS
  {
    assert Ref(blocks, inodes[n], NDIRECT) == inodes[n].addrs[NDIRECT];
    SlotOwner(nmeta, bits, blocks, inodes, owner, n, NDIRECT);
  }

  /** Emptying slot (n, k) of block b, and freeing b. */
  lemma OwnerDrop(nmeta: nat, bits: seq<bool>, blocks: seq<Block>, inodes: seq<Inode>, owner: map<nat, (nat, nat)>,
                  blocks': seq<Block>, inodes': seq<Inode>, n: nat, k: nat, b: nat)
    requires OwnerOk(nmeta, bits, blocks, inodes, owner)
    requires n < |inodes| && k < SLOTS && Ref(blocks, inodes[n], k) == b != 0
    requires SlotFilled(blocks, inodes, blocks', inodes', n, k, 0)
    ensures b < |bits| && OwnerOk(nmeta, bits[b := false], blocks', inodes', owner - {b})
  {
    var owner' := owner - {b};
    forall c | c in owner' ensures Ref(blocks', inodes'[owner'[c].0], owner'[c].1) == c {
      assert Ref(blocks, inodes[owner[c].0], owner[c].1) == c;
    }
  }

  lemma ClearDirect(nmeta: nat, bits: seq<bool>, blocks: seq<Block>, inodes: seq<Inode>, owner: map<nat, (nat, nat)>,
                    n: nat, k: nat)
    requires OwnerOk(nmeta, bits, blocks, inodes, owner) && n < |inodes| && k < NDIRECT
    ensures SlotFilled(blocks, inodes, blocks, inodes[n := inodes[n].(addrs := inodes[n].addrs[k := 0])], n, k, 0)
  {
  }

  lemma ClearEntry(nmeta: nat, bits: seq<bool>, blocks: seq<Block>, inodes: seq<Inode>, owner: map<nat, (nat, nat)>,
                   n: nat, j: nat)
    requires OwnerOk(nmeta, bits, blocks, inodes, owner)
    requires n < |inodes| && j < NINDIRECT && 0 < inodes[n].addrs[NDIRECT] < |blocks|
    ensures SlotFilled(blocks, inodes,
                       blocks[inodes[n].addrs[NDIRECT] := SetWord(blocks[inodes[n].addrs[NDIRECT]], j, 0)],
                       inodes, n, NDIRECT + 1 + j, 0)
  {
    var ind := inodes[n].addrs[NDIRECT];
    assert Ref(blocks, inodes[n], NDIRECT) == ind;
    var blocks' := blocks[ind := SetWord(blocks[ind], j, 0)];
    forall m, i | 0 <= m < |inodes| && 0 <= i < SLOTS
      ensures Ref(blocks', inodes[m], i) == if m == n && i == NDIRECT + 1 + j then 0 else Ref(blocks, inodes[m], i)
    {
      assert Ref(blocks, inodes[m], NDIRECT) == inodes[m].addrs[NDIRECT];
      if m == n && i > NDIRECT {
        SetWordAt(blocks[ind], j, 0, i - NDIRECT - 1);
      }
    }
  }

  /** Once its entries are gone, the indirect block itself goes; what it still holds no longer
      matters. */
  lemma DropPointer(nmeta: nat, bits: seq<bool>, vb: seq<Block>, inodes: seq<Inode>, owner: map<nat, (nat, nat)>,
                    blocks: seq<Block>, n: nat)
    requires OwnerOk(nmeta, bits, vb, inodes, owner) && n < |inodes|
    requires 0 < inodes[n].addrs[NDIRECT] < |blocks| == |vb|
    requires vb == blocks[inodes[n].addrs[NDIRECT] := vb[inodes[n].addrs[NDIRECT]]]
    requires forall q :: 0 <= q < NINDIRECT ==> Word(vb[inodes[n].addrs[NDIRECT]], q) == 0
    ensures inodes[n].addrs[NDIRECT] < |bits|
    ensures OwnerOk(nmeta, bits[inodes[n].addrs[NDIRECT] := false], blocks,
                    inodes[n := inodes[n].(addrs := inodes[n].addrs[NDIRECT := 0])], owner - {inodes[n].addrs[NDIRECT]})
  {
    var ind := inodes[n].addrs[NDIRECT];
    var inodes' := inodes[n := inodes[n].(addrs := inodes[n].addrs[NDIRECT := 0])];
    assert Ref(vb, inodes[n], NDIRECT) == ind;
    forall m, i | 0 <= m < |inodes| && 0 <= i < SLOTS
      ensures Ref(blocks, inodes'[m], i) == if m == n && i == NDIRECT then 0 else Ref(vb, inodes[m], i)
    {
      assert Ref(vb, inodes[m], NDIRECT) == inodes[m].addrs[NDIRECT];
      if m == n && i > NDIRECT {
        assert Word(vb[ind], i - NDIRECT - 1) == 0;
      }
    }
    OwnerDrop(nmeta, bits, vb, inodes, owner, blocks, inodes', n, NDIRECT, ind);
  }

  lemma EntriesEmpty(nmeta: nat, bits: seq<bool>, blocks: seq<Block>, inodes: seq<Inode>, owner: map<nat, (nat, nat)>,
                     owner0: map<nat, (nat, nat)>, n: nat, gone: set<nat>)
    requires OwnerOk(nmeta, bits, blocks, inodes, owner) && n < |inodes| && inodes[n].addrs[NDIRECT] == 0
    requires OwnerGone(owner0, owner, n, gone) && forall k :: k in gone <==> 0 <= k < NDIRECT
    ensures OwnerWithout(owner0, owner, n)
  {
    forall b | b in owner ensures owner[b].0 != n {
      assert Ref(blocks, inodes[owner[b].0], owner[b].1) == b;
    }
  }

  /** The emptied inode. */
  lemma Emptied(nmeta: nat, bits: seq<bool>, blocks: seq<Block>, inodes0: seq<Inode>, inodes: seq<Inode>,
                owner: map<nat, (nat, nat)>, dinodes: seq<Inode>, n: nat)
    requires OwnerOk(nmeta, bits, blocks, inodes, owner) && n < |inodes| == |inodes0|
    requires OthersOk(blocks, inodes0, dinodes, n)
    requires inodes == inodes0[n := inodes0[n].(addrs := inodes[n].addrs)]
    requires |inodes[n].addrs| == NDIRECT + 1 && forall k :: 0 <= k <= NDIRECT ==> inodes[n].addrs[k] == 0
    ensures var inodes' := inodes[n := inodes[n].(size := 0)];
            OwnerOk(nmeta, bits, blocks, inodes', owner)
            && Extent(blocks, inodes'[n], 0) && BlocksFor(0) == 0
            && |dinodes| == |inodes'| && dinodes[n := inodes'[n]] == inodes' && OthersOk(blocks, inodes', inodes', n)
            && OthersSame(blocks, inodes0, blocks, inodes', n)
  {
    forall m | 0 <= m < |inodes| && m != n ensures inodes[m] == inodes0[m] == dinodes[m] {
    }
    OthersRefl(blocks, inodes0, dinodes, n);
    assert Extent(blocks, inodes[n], 0) by {
      forall bn | 0 <= bn < MAXFILE ensures FileBlk(blocks, inodes[n], bn) == 0 {
      }
    }
    Resized(nmeta, bits, blocks, inodes, owner, dinodes, n, 0, blocks, inodes0);
  }

  /** Writing one stretch and then the next is writing both. */
  lemma SpliceTwice(blocks0: seq<Block>, ip0: Inode, blocks1: seq<Block>, ip1: Inode, off0: nat, src: seq<Byte>,
                    i: nat, m: nat)
    requires |ip0.addrs| == |ip1.addrs| == NDIRECT + 1 && i + m <= |src|
    requires i == 0 ==> blocks1 == blocks0 && ip1 == ip0
    requires i > 0 ==> off0 <= ip0.size && Contents(blocks1, ip1) == Splice(Contents(blocks0, ip0), off0, src[..i])
    requires off0 + i <= ip1.size
    ensures off0 <= ip0.size
    ensures Splice(Contents(blocks1, ip1), off0 + i, src[i..i + m]) ==
          Splice(Contents(blocks0, ip0), off0, src[..i + m])
  {
    var c := Contents(blocks0, ip0);
    if i == 0 {
      assert src[..m] == src[0..m];
    } else {
      assert src[..i] + src[i..i + m] == src[..i + m];
      SpliceSplice(c, off0, src[..i], src[i..i + m]);
    }
  }

  lemma SpliceSplice(c: seq<Byte>, off: nat, a: seq<Byte>, b: seq<Byte>)
    requires off <= |c|
    ensures off + |a| <= |Splice(c, off, a)|
    ensures Splice(Splice(c, off, a), off + |a|, b) == Splice(c, off, a + b)
  {
    var d := Splice(c, off, a);
    var l, r := Splice(d, off + |a|, b), Splice(c, off, a + b);
    assert |l| == |r|;
    forall i | 0 <= i < |l| ensures l[i] == r[i] {
    }
  }

  /** A stretch of one block is a stretch of the file. */
  lemma BlockBytes(blocks: seq<Block>, ip: Inode, off: nat, m: nat, data: seq<Byte>)
    requires |ip.addrs| == NDIRECT + 1 && off + m <= ip.size && off % BSIZE + m <= BSIZE
    requires FileBlk(blocks, ip, off / BSIZE) < |blocks|
    requires data == blocks[FileBlk(blocks, ip, off / BSIZE)][off % BSIZE..off % BSIZE + m]
    ensures data == Contents(blocks, ip)[off..off + m]
  {
    var c := Contents(blocks, ip)[off..off + m];
    forall i | 0 <= i < m ensures data[i] == c[i] {
      InBlock(off, off + i);
    }
  }

  const CHUNK: nat := (LOGSIZE - 1 - 1 - 2) / 2 * 512

  /** What readi, writei and filewrite return: a count, -1, or nothing because balloc panicked. */
  datatype IoResult = Ok(n: nat) | Err | Panic

  function Min(a: nat, b: nat): nat {
    if a < b then a else b
  }

  /** How much of the remaining bytes goes into the block that offset off falls in. */
  function Piece(left: nat, off: nat): (m: nat)
    requires left > 0
    ensures 0 < m <= left && off % BSIZE + m <= BSIZE
    ensures m == left || (off + m) % BSIZE == 0
  {
    Min(left, BSIZE - off % BSIZE)
  }

  // ---- What a write logs ----

  /** For a new block at position bn: the block and its free-map block, the indirect block, and the
      free-map block of an indirect block that is new too. */
  function LogSet(bn: nat, b: nat, bMap: nat, ind: nat, indMap: nat): set<nat> {
    {bMap, b} + (if bn < NDIRECT then {} else if bn == NDIRECT then {ind, indMap} else {ind})
  }

  /** Past its first block, a write is at a block boundary. */
  predicate Aligned(off0: nat, off: nat) {
    off0 <= off && (off > off0 ==> off % BSIZE == 0)
  }

  /** The free-map blocks for the given blocks. */
  ghost function Maps(bmapstart: nat, news: set<nat>): set<nat> {
    set b | b in news :: b / BPB + bmapstart
  }

  /** What a write has logged when the file has grown from nb0 to nb blocks: the data blocks, the free-map
      blocks of the new blocks, and the indirect block if an entry of it is new. */
  ghost function LogsFor(bmapstart: nat, data: set<nat>, news: set<nat>, nb0: nat, nb: nat, ind: nat): set<nat> {
    data + Maps(bmapstart, news) + (if nb > nb0 && nb > NDIRECT then {ind} else {})
  }

  /** How many slots a write that ends at `off` fills. */
  function NewSlots(size: nat, off: nat): nat {
    SlotsFor(BlocksFor(Max(size, off))) - SlotsFor(BlocksFor(size))
  }

  /** How many blocks of the file a write from off0 to off touches. */
  function Spans(off0: nat, off: nat): nat {
    if off <= off0 then 0 else (off - 1) / BSIZE - off0 / BSIZE + 1
  }

  /** The data blocks are as many, each in its own slot of inode n. */
  ghost predicate DataOk(data: set<nat>, owner: map<nat, (nat, nat)>, n: nat, off0: nat, off: nat) {
    && |data| == Spans(off0, off)
    && forall b :: b in data ==> b in owner && owner[b].0 == n && owner[b].1 != NDIRECT
                                 && owner[b].1 < Slot(off0 / BSIZE + Spans(off0, off))
  }

  /** How many blocks writei logs: the data blocks, the free-map blocks of the new blocks, the indirect
      block if an entry of it is new, and the inode if the file becomes longer. */
  ghost function WriteCost(bmapstart: nat, bits: seq<bool>, size: nat, off0: nat, len: nat): nat {
    if len == 0 then 0
    else
      var nb0, nb := BlocksFor(size), BlocksFor(Max(size, off0 + len));
      Spans(off0, off0 + len) + |Maps(bmapstart, Fresh(bits, Marked(bits, NewSlots(size, off0 + len))))|
      + (if nb > nb0 && nb > NDIRECT then 1 else 0) + (if off0 + len > size then 1 else 0)
  }

  /** The inode blocks, the bitmap and the data area follow each other, as mkfs lays them out. */
  ghost predicate LaidOut(nmeta: nat, inodestart: nat, bmapstart: nat, nblocks: nat, ninodes: nat) {
    && (forall n :: 0 <= n < ninodes ==> n / IPB + inodestart < bmapstart)
    && (forall b :: 0 <= b < nblocks ==> b / BPB + bmapstart < nmeta)
  }

  lemma MapsSize(bmapstart: nat, news: set<nat>)
    ensures |Maps(bmapstart, news)| <= |news|
  {
    if news == {} {
      assert Maps(bmapstart, news) == {};
    } else {
      var b :| b in news;
      MapsSize(bmapstart, news - {b});
      MapsAdd(bmapstart, news - {b}, {b});
      MapsOne(bmapstart, b);
      hide Maps;
      assert (news - {b}) + {b} == news;
    }
  }

  lemma MapsAdd(bmapstart: nat, a: set<nat>, b: set<nat>)
    ensures Maps(bmapstart, a + b) == Maps(bmapstart, a) + Maps(bmapstart, b)
  {
    forall x | x in Maps(bmapstart, a) + Maps(bmapstart, b) ensures x in Maps(bmapstart, a + b) {
      var c :| (c in a || c in b) && x == c / BPB + bmapstart;
      assert c in a + b;
    }
  }

  lemma MapsOne(bmapstart: nat, b: nat)
    ensures Maps(bmapstart, {b}) == {b / BPB + bmapstart}
  {
    assert b in {b};
  }

  /** The account of a write from off0 to off that has grown the file from nb0 to nb blocks. */
  ghost predicate Account(bmapstart: nat, data: set<nat>, ip: Inode, owner: map<nat, (nat, nat)>, n: nat, off0: nat,
                          off: nat, nb0: nat, nb: nat, bits0: seq<bool>, bits: seq<bool>, base: set<nat>,
                          logged: set<nat>)
  {
    && DataOk(data, owner, n, off0, off) && |ip.addrs| == NDIRECT + 1
    && SlotsFor(nb0) <= SlotsFor(nb) && Allocs(bits0, bits, SlotsFor(nb) - SlotsFor(nb0))
    && logged == base + LogsFor(bmapstart, data, Fresh(bits0, bits), nb0, nb, ip.addrs[NDIRECT])
  }

  lemma AccountNone(bmapstart: nat, ip: Inode, owner: map<nat, (nat, nat)>, n: nat, off0: nat, nb: nat,
                    bits: seq<bool>, logged: set<nat>)
    requires |ip.addrs| == NDIRECT + 1
    ensures Account(bmapstart, {}, ip, owner, n, off0, off0, nb, nb, bits, bits, logged, logged)
  {
    AllocsNone(bits);
  }

  lemma AccountShort(bmapstart: nat, data: set<nat>, ip: Inode, owner: map<nat, (nat, nat)>, n: nat, off0: nat,
                     off: nat, nb0: nat, nb: nat, bits0: seq<bool>, bits: seq<bool>, base: set<nat>,
                     logged: set<nat>)
    requires Account(bmapstart, data, ip, owner, n, off0, off, nb0, nb, bits0, bits, base, logged)
    ensures |FreeOf(bits)| < SlotsFor(nb + 1) - SlotsFor(nb) ==> |FreeOf(bits0)| < SlotsFor(nb + 1) - SlotsFor(nb0)
  {
    AllocsShort(bits0, bits, SlotsFor(nb) - SlotsFor(nb0), SlotsFor(nb + 1) - SlotsFor(nb));
  }

  lemma AccountNext(bmapstart: nat, data: set<nat>, ip1: Inode, ip: Inode, owner1: map<nat, (nat, nat)>,
                    owner: map<nat, (nat, nat)>, n: nat, off0: nat, off: nat, m: nat, nb0: nat, nb: nat,
                    bits0: seq<bool>, bits1: seq<bool>, bits: seq<bool>, base: set<nat>, logged1: set<nat>,
                    logged: set<nat>, addr: nat)
    requires Account(bmapstart, data, ip1, owner1, n, off0, off, nb0, nb, bits0, bits1, base, logged1)
    requires nb0 <= nb && off / BSIZE <= nb && Aligned(off0, off) && 0 < m && off % BSIZE + m <= BSIZE
    requires |ip.addrs| == NDIRECT + 1 && (NDIRECT < nb ==> ip.addrs[NDIRECT] == ip1.addrs[NDIRECT])
    requires OwnerKept(owner1, owner) && addr in owner && owner[addr] == (n, Slot(off / BSIZE))
    requires Taken(bits1, bits, off / BSIZE, nb, addr, ip.addrs[NDIRECT])
    requires var bn, ind := off / BSIZE, ip.addrs[NDIRECT];
             logged == logged1 + {addr} + if bn < nb then {}
                 else LogSet(bn, addr, addr / BPB + bmapstart, ind, ind / BPB + bmapstart)
    ensures Account(bmapstart, data + {addr}, ip, owner, n, off0, off + m, nb0, Max(nb, off / BSIZE + 1), bits0, bits,
                    base, logged)
  {
    hide DataOk, Allocs, Fresh, LogSet, Taken, OwnerKept, SlotsFor, LogsFor;
    var bn, ind0, ind := off / BSIZE, ip1.addrs[NDIRECT], ip.addrs[NDIRECT];
    SlotsGrow(nb0, nb);
    DataNext(data, owner1, owner, n, off0, off, m, addr);
    LogsNext(bmapstart, bits0, bits1, bits, data, nb0, nb, bn, addr, ind0, ind);
    Regroup(base, LogsFor(bmapstart, data, Fresh(bits0, bits1), nb0, nb, ind0), {addr},
            if bn < nb then {} else LogSet(bn, addr, addr / BPB + bmapstart, ind, ind / BPB + bmapstart));
  }

  /** What bmap takes from the free map for position bn, if it is past the first nb blocks. */
  ghost predicate Taken(bits: seq<bool>, bits': seq<bool>, bn: nat, nb: nat, addr: nat, ind: nat) {
    if bn < nb then bits' == bits
    else Allocs(bits, bits', SlotsFor(nb + 1) - SlotsFor(nb)) && Fresh(bits, bits') == NewBlocks(bn, addr, ind)
  }

  lemma SlotsGrow(nb0: nat, nb: nat)
    requires nb0 <= nb
    ensures SlotsFor(nb0) <= SlotsFor(nb) < SlotsFor(nb + 1)
  {
  }

  /** One more data block. */
  lemma DataNext(data: set<nat>, owner: map<nat, (nat, nat)>, owner': map<nat, (nat, nat)>, n: nat, off0: nat,
                 off: nat, m: nat, addr: nat)
    requires DataOk(data, owner, n, off0, off) && OwnerKept(owner, owner')
    requires addr in owner' && owner'[addr] == (n, Slot(off / BSIZE))
    requires Aligned(off0, off) && 0 < m && off % BSIZE + m <= BSIZE
    ensures DataOk(data + {addr}, owner', n, off0, off + m)
  {
    InBlock(off, off + m - 1);
    if off > off0 {
      assert (off - 1) / BSIZE == off / BSIZE - 1;
    }
    assert off0 / BSIZE + Spans(off0, off) == off / BSIZE;
    assert Spans(off0, off + m) == Spans(off0, off) + 1;
    assert addr !in data;
  }

  lemma LogsNext(bmapstart: nat, bits0: seq<bool>, bits1: seq<bool>, bits: seq<bool>, data: set<nat>, nb0: nat, nb: nat,
                 bn: nat, addr: nat, ind0: nat, ind: nat)
    requires nb0 <= nb && bn <= nb && Allocs(bits0, bits1, SlotsFor(nb) - SlotsFor(nb0))
    requires Taken(bits1, bits, bn, nb, addr, ind)
    requires NDIRECT < nb ==> ind == ind0
    ensures LogsFor(bmapstart, data, Fresh(bits0, bits1), nb0, nb, ind0) + {addr}
            + (if bn < nb then {} else LogSet(bn, addr, addr / BPB + bmapstart, ind, ind / BPB + bmapstart))
         == LogsFor(bmapstart, data + {addr}, Fresh(bits0, bits), nb0, Max(nb, bn + 1), ind)
    ensures Allocs(bits0, bits, SlotsFor(Max(nb, bn + 1)) - SlotsFor(nb0))
  {
    hide Maps, Allocs, Fresh, LogSet, SlotsFor, NewBlocks;
    var maps, more := Maps(bmapstart, Fresh(bits0, bits1)), Maps(bmapstart, NewBlocks(bn, addr, ind));
    var ind1, ind2 := if nb > nb0 && nb > NDIRECT then {ind} else {}, if bn >= NDIRECT then {ind} else {};
    LogSetIs(bmapstart, bn, addr, ind);
    SetsGrow(data, maps, more, {addr}, ind1, ind2);
    if bn == nb {
      SlotsGrow(nb0, nb);
      AllocsThen(bits0, bits1, SlotsFor(nb) - SlotsFor(nb0), SlotsFor(nb + 1) - SlotsFor(nb));
      MapsAdd(bmapstart, Fresh(bits0, bits1), NewBlocks(bn, addr, ind));
    }
  }

  lemma SetsGrow(data: set<nat>, maps: set<nat>, more: set<nat>, addr: set<nat>, ind1: set<nat>, ind2: set<nat>)
    ensures data + maps + ind1 + addr + {} == (data + addr) + maps + ind1
    ensures ind1 <= ind2 ==> data + maps + ind1 + addr + (addr + more + ind2) == (data + addr) + (maps + more) + ind2
  {
  }

  lemma Regroup(a: set<nat>, b: set<nat>, c: set<nat>, d: set<nat>)
    ensures a + b + c + d == a + (b + c + d)
  {
  }

  lemma MapsNew(bmapstart: nat, bn: nat, addr: nat, ind: nat)
    ensures Maps(bmapstart, NewBlocks(bn, addr, ind))
         == {addr / BPB + bmapstart} + (if bn == NDIRECT then {ind / BPB + bmapstart} else {})
  {
    MapsOne(bmapstart, addr);
    MapsOne(bmapstart, ind);
    MapsAdd(bmapstart, {addr}, {ind});
    assert {addr} + {ind} == {addr, ind};
  }

  lemma LogSetIs(bmapstart: nat, bn: nat, addr: nat, ind: nat)
    ensures LogSet(bn, addr, addr / BPB + bmapstart, ind, ind / BPB + bmapstart)
         == {addr} + Maps(bmapstart, NewBlocks(bn, addr, ind)) + (if bn >= NDIRECT then {ind} else {})
  {
    MapsNew(bmapstart, bn, addr, ind);
  }

  /** A write that runs out of blocks at block bn needs at least that many. */
  lemma LaterBlocks(nb0: nat, bn: nat, size: nat, end: nat, off: nat)
    requires nb0 == BlocksFor(size) && nb0 <= bn == off / BSIZE && off < end
    ensures SlotsFor(bn + 1) - SlotsFor(nb0) <= NewSlots(size, end)
  {
    assert off / BSIZE + 1 <= BlocksFor(end);
  }

  /** The next block of a write: where it ends, and how many blocks the file then has. */
  lemma NextPiece(off0: nat, off: nat, m: nat, size0: nat, left: nat)
    requires Aligned(off0, off) && off0 <= size0
    requires 0 < m <= left && off % BSIZE + m <= BSIZE && (m == left || (off + m) % BSIZE == 0)
    ensures Aligned(off0, off + m) || m == left
    ensures off / BSIZE <= BlocksFor(Max(size0, off))
    ensures BlocksFor(Max(size0, off + m)) == Max(BlocksFor(Max(size0, off)), off / BSIZE + 1)
    ensures off0 % BSIZE != 0 ==> off0 / BSIZE < BlocksFor(Max(size0, off))
    ensures off + m <= size0 ==> off / BSIZE < BlocksFor(Max(size0, off))
    ensures off + m <= MAXFILE * BSIZE ==> off / BSIZE < MAXFILE
    ensures off > 0 ==> (off - 1) / BSIZE < BlocksFor(Max(size0, off))
  {
    NextPieceEnd(off, m);
    NextPieceBlocks(off0, off, size0);
  }

  lemma NextPieceEnd(off: nat, m: nat)
    requires 0 < m && off % BSIZE + m <= BSIZE
    ensures BlocksFor(off + m) == off / BSIZE + 1
    ensures off + m <= MAXFILE * BSIZE ==> off / BSIZE < MAXFILE
  {
  }

  lemma NextPieceBlocks(off0: nat, off: nat, size0: nat)
    requires Aligned(off0, off) && off0 <= size0
    ensures off / BSIZE <= BlocksFor(Max(size0, off)) <= Max(BlocksFor(size0), off / BSIZE + 1)
    ensures off < size0 ==> off / BSIZE < BlocksFor(size0)
    ensures off0 % BSIZE != 0 ==> off0 / BSIZE < BlocksFor(Max(size0, off))
    ensures off > size0 ==> BlocksFor(off) == off / BSIZE
  {
  }

  /** How many blocks a write of len bytes has logged. */
  ghost predicate Counted(was: set<nat>, logged: set<nat>, len: nat, laid: bool, cost: nat) {
    && (len <= CHUNK ==> |logged - was| <= LOGSIZE) && (len <= 3 * BSIZE ==> |logged - was| <= MAXOPBLOCKS)
    && (was == {} && laid ==> |logged| == cost)
  }

  /** The number of blocks logged, with the inode if the file has become longer. */
  lemma LogSize(nmeta: nat, inodestart: nat, bmapstart: nat, blocks: seq<Block>, inodes: seq<Inode>, n: nat,
                data: set<nat>, owner: map<nat, (nat, nat)>, off0: nat, off: nat, size: nat, bits0: seq<bool>,
                bits: seq<bool>, base: set<nat>, logged: set<nat>, iblock: nat)
    requires OwnerOk(nmeta, bits, blocks, inodes, owner) && n < |inodes| && |bits0| == |bits|
    requires iblock == n / IPB + inodestart
    requires Extent(blocks, inodes[n], BlocksFor(Max(size, off))) && off0 <= off && off0 <= size
    requires Account(bmapstart, data, inodes[n], owner, n, off0, off, BlocksFor(size), BlocksFor(Max(size, off)), bits0,
                     bits, base, logged)
    ensures NewSlots(size, off) <= |FreeOf(bits0)|
    ensures Counted(base, if off > size then logged + {iblock} else logged, off - off0,
                    LaidOut(nmeta, inodestart, bmapstart, |blocks|, |inodes|),
                    WriteCost(bmapstart, bits0, size, off0, off - off0))
  {
    hide OwnerOk, Extent, LaidOut, FreeOf, Account, WriteCost, NewSlots, BlocksFor;
    var logs := LogSets(nmeta, inodestart, bmapstart, blocks, inodes, n, data, owner, off0, off, size, bits0, bits,
                        base, logged);
    LogBounds(base, if off > size then logged + {iblock} else logged, logs, iblock, off > size);
  }

  /** The blocks logged, apart from the inode. */
  lemma LogSets(nmeta: nat, inodestart: nat, bmapstart: nat, blocks: seq<Block>, inodes: seq<Inode>, n: nat,
                data: set<nat>, owner: map<nat, (nat, nat)>, off0: nat, off: nat, size: nat, bits0: seq<bool>,
                bits: seq<bool>, base: set<nat>, logged: set<nat>)
    returns (logs: set<nat>)
    requires OwnerOk(nmeta, bits, blocks, inodes, owner) && n < |inodes| && |bits0| == |bits|
    requires Extent(blocks, inodes[n], BlocksFor(Max(size, off))) && off0 <= off && off0 <= size
    requires Account(bmapstart, data, inodes[n], owner, n, off0, off, BlocksFor(size), BlocksFor(Max(size, off)), bits0,
                     bits, base, logged)
    ensures logged == base + logs && NewSlots(size, off) <= |FreeOf(bits0)|
    ensures off - off0 <= CHUNK ==> |logs| < LOGSIZE
    ensures off - off0 <= 3 * BSIZE ==> |logs| < MAXOPBLOCKS
    ensures LaidOut(nmeta, inodestart, bmapstart, |blocks|, |inodes|) ==>
              n / IPB + inodestart !in logs
              && |logs| + (if off > size then 1 else 0) == WriteCost(bmapstart, bits0, size, off0, off - off0)
  {
    hide OwnerOk, Extent, LaidOut, FreeOf, Fresh, Marked, Maps, SlotsFor, BlocksFor, Spans;
    var ind, news := inodes[n].addrs[NDIRECT], Fresh(bits0, bits);
    var nb0, nb := BlocksFor(size), BlocksFor(Max(size, off));
    var maps := Maps(bmapstart, news);
    var inds := if nb > nb0 && nb > NDIRECT then {ind} else {};
    logs := data + maps + inds;
    AllocsFree(bits0, NewSlots(size, off));
    MapsSize(bmapstart, news);
    SpansBound(size, off0, off);
    IndirectThere(blocks, inodes[n], nb);
    if LaidOut(nmeta, inodestart, bmapstart, |blocks|, |inodes|) {
      LogsApart(nmeta, inodestart, bmapstart, bits0, bits, blocks, inodes, owner, n, data, inds);
    }
  }

  /** Data blocks and the indirect block belong to the file; the others are metadata. */
  lemma LogsApart(nmeta: nat, inodestart: nat, bmapstart: nat, bits0: seq<bool>, bits: seq<bool>, blocks: seq<Block>,
                  inodes: seq<Inode>, owner: map<nat, (nat, nat)>, n: nat, data: set<nat>, inds: set<nat>)
    requires OwnerOk(nmeta, bits, blocks, inodes, owner) && n < |inodes| && |bits0| == |bits|
    requires LaidOut(nmeta, inodestart, bmapstart, |blocks|, |inodes|)
    requires forall b :: b in data ==> b in owner && owner[b].0 == n && owner[b].1 != NDIRECT
    requires inds == {} || (inds == {inodes[n].addrs[NDIRECT]} && inodes[n].addrs[NDIRECT] != 0)
    ensures var maps := Maps(bmapstart, Fresh(bits0, bits));
            && data !! inds && data !! maps && inds !! maps
            && n / IPB + inodestart !in data + maps + inds
            && |data + maps + inds| == |data| + |maps| + |inds|
  {
    hide OwnerOk, LaidOut, Maps, Fresh, OwnerKept;
    RefOwned(nmeta, bits, blocks, inodes, owner, n, NDIRECT);
    var maps := Maps(bmapstart, Fresh(bits0, bits));
    OwnerRange(nmeta, inodestart, bmapstart, bits, blocks, inodes, owner);
    MapsRange(nmeta, inodestart, bmapstart, bits0, bits, |blocks|, |inodes|, n);
    forall b | b in data + inds ensures b in owner && b >= nmeta > bmapstart {
    }
    assert data !! inds;
    ApartSize(data, maps, inds);
  }

  lemma MapsRange(nmeta: nat, inodestart: nat, bmapstart: nat, bits0: seq<bool>, bits: seq<bool>, nblocks: nat,
                  ninodes: nat, n: nat)
    requires LaidOut(nmeta, inodestart, bmapstart, nblocks, ninodes) && |bits| <= nblocks && n < ninodes
    ensures forall b :: b in Maps(bmapstart, Fresh(bits0, bits)) ==> bmapstart <= b < nmeta
    ensures n / IPB + inodestart < bmapstart
  {
  }

  lemma OwnerRange(nmeta: nat, inodestart: nat, bmapstart: nat, bits: seq<bool>, blocks: seq<Block>,
                   inodes: seq<Inode>, owner: map<nat, (nat, nat)>)
    requires OwnerOk(nmeta, bits, blocks, inodes, owner)
    requires LaidOut(nmeta, inodestart, bmapstart, |blocks|, |inodes|)
    ensures |bits| == |blocks| && forall b :: b in owner ==> b >= nmeta > bmapstart
  {
    forall b | b in owner ensures b >= nmeta > bmapstart {
      assert b / BPB + bmapstart < nmeta;
    }
  }

  lemma ApartSize(a: set<nat>, b: set<nat>, c: set<nat>)
    requires a !! b && a !! c && b !! c
    ensures |a + b + c| == |a| + |b| + |c|
  {
    assert (a + b) !! c;
  }

  /** How many blocks a write touches and how many slots it fills. */
  lemma SpansBound(size: nat, off0: nat, off: nat)
    requires off0 <= size && off0 <= off
    ensures NewSlots(size, off) <= Spans(off0, off) + 1
    ensures off0 % BSIZE != 0 && off > off0 ==> NewSlots(size, off) <= Spans(off0, off)
    ensures off - off0 <= CHUNK ==> Spans(off0, off) <= if off0 % BSIZE == 0 then 13 else 14
    ensures off - off0 <= 3 * BSIZE ==> Spans(off0, off) <= if off0 % BSIZE == 0 then 3 else 4
    ensures off == off0 ==> Spans(off0, off) == 0 && NewSlots(size, off) == 0
  {
  }

  /** The inode's block comes on top. */
  lemma LogBounds(was: set<nat>, logged: set<nat>, logs: set<nat>, iblock: nat, grew: bool)
    requires logged == was + logs + (if grew then {iblock} else {})
    ensures |logged - was| <= |logs| + 1
    ensures was == {} && iblock !in logs ==> |logged| == |logs| + (if grew then 1 else 0)
  {
    SubsetSize(logged - was, logs + {iblock});
    if was == {} {
      assert logged == logs + (if grew then {iblock} else {});
    }
  }

  // ---- What a write does to the bytes ----

  lemma BytesCompose(blocks0: seq<Block>, ip0: Inode, blocks1: seq<Block>, ip1: Inode, blocks2: seq<Block>, ip2: Inode,
                     nb0: nat, nb1: nat, off0: nat, src: seq<Byte>, t: nat, m: nat)
    requires t + m <= |src| && nb0 <= nb1 && (off0 + t > 0 ==> (off0 + t - 1) / BSIZE < nb1)
    requires BytesWritten(blocks0, ip0, blocks1, ip1, nb0, off0, src[..t])
    requires BytesWritten(blocks1, ip1, blocks2, ip2, nb1, off0 + t, src[t..t + m])
    ensures BytesWritten(blocks0, ip0, blocks2, ip2, nb0, off0, src[..t + m])
  {
    forall i | off0 <= i < off0 + t + m ensures ByteAt(blocks2, ip2, i) == src[..t + m][i - off0] {
      if i < off0 + t {
        assert i / BSIZE <= (off0 + t - 1) / BSIZE;
        assert ByteAt(blocks1, ip1, i) == src[..t][i - off0];
      } else {
        assert ByteAt(blocks2, ip2, i) == src[t..t + m][i - (off0 + t)];
      }
    }
  }

  lemma BytesSplice(blocks0: seq<Block>, ip0: Inode, blocks: seq<Block>, ip1: Inode, ip: Inode, off0: nat,
                    src: seq<Byte>)
    requires BytesWritten(blocks0, ip0, blocks, ip1, BlocksFor(ip0.size), off0, src) && off0 <= ip0.size
    requires ip == ip1.(size := Max(ip0.size, off0 + |src|))
    ensures Contents(blocks, ip) == Splice(Contents(blocks0, ip0), off0, src)
  {
    var c, c0 := Contents(blocks, ip), Contents(blocks0, ip0);
    var sp := Splice(c0, off0, src);
    assert |c| == |sp|;
    forall i | 0 <= i < |c| ensures c[i] == sp[i] {
      assert ByteAt(blocks, ip, i) == ByteAt(blocks, ip1, i);
      if off0 <= i < off0 + |src| {
        assert sp[i] == src[i - off0];
      } else {
        InFile(i, ip0.size);
        assert sp[i] == c0[i];
      }
    }
  }

  lemma InFile(i: nat, size: nat)
    requires i < size
    ensures i / BSIZE < BlocksFor(size)
  {
  }

  /** Recording the new size once the blocks are there. */
  lemma Resized(nmeta: nat, bits: seq<bool>, blocks: seq<Block>, inodes: seq<Inode>, owner: map<nat, (nat, nat)>,
                dinodes: seq<Inode>, n: nat, e: nat, blocks0: seq<Block>, inodes0: seq<Inode>)
    requires n < |inodes| && OwnerOk(nmeta, bits, blocks, inodes, owner)
    requires OthersOk(blocks, inodes, dinodes, n) && Extent(blocks, inodes[n], BlocksFor(e))
    requires OthersSame(blocks0, inodes0, blocks, inodes, n)
    ensures var inodes' := inodes[n := inodes[n].(size := e)];
            OwnerOk(nmeta, bits, blocks, inodes', owner)
            && Extent(blocks, inodes'[n], BlocksFor(e))
            && |dinodes| == |inodes| && dinodes[n := inodes'[n]] == inodes' && OthersOk(blocks, inodes', inodes', n)
            && OthersSame(blocks0, inodes0, blocks, inodes', n)
  {
    var inodes' := inodes[n := inodes[n].(size := e)];
    forall m, k | 0 <= m < |inodes| && 0 <= k < SLOTS
      ensures |inodes'[m].addrs| == NDIRECT + 1 && Ref(blocks, inodes'[m], k) == Ref(blocks, inodes[m], k)
    {
      assert |inodes[m].addrs| == NDIRECT + 1;
    }
    forall b | b in owner ensures Ref(blocks, inodes'[owner[b].0], owner[b].1) == b {
      assert Ref(blocks, inodes[owner[b].0], owner[b].1) == b;
    }
    forall m | 0 <= m < |inodes| && m != n ensures inodes'[m] == inodes[m] == dinodes[m] {
    }
    forall bn | 0 <= bn < MAXFILE ensures FileBlk(blocks, inodes'[n], bn) == FileBlk(blocks, inodes[n], bn) {
    }
  }

  lemma OthersRefl(blocks: seq<Block>, inodes: seq<Inode>, dinodes: seq<Inode>, n: nat)
    requires OthersOk(blocks, inodes, dinodes, n)
    ensures OthersSame(blocks, inodes, blocks, inodes, n)
  {
  }

  lemma OthersLength(blocks: seq<Block>, inodes: seq<Inode>, blocks': seq<Block>, inodes': seq<Inode>, n: nat)
    requires OthersSame(blocks, inodes, blocks', inodes', n)
    ensures |inodes'| == |inodes|
  {
  }

  lemma FilesRefl(blocks: seq<Block>, inodes: seq<Inode>, dinodes: seq<Inode>, n: nat, nb: nat)
    requires OthersOk(blocks, inodes, dinodes, n) && n < |inodes| && Extent(blocks, inodes[n], nb)
    ensures FilesKept(blocks, inodes, blocks, inodes, n, nb)
  {
  }

  /** Which of the addresses on the way to block bn are missing. */
  lemma BlockThere(blocks: seq<Block>, ip: Inode, bn: nat, nb: nat)
    requires Extent(blocks, ip, nb) && NDIRECT <= bn <= nb && bn < MAXFILE
    ensures |ip.addrs| == NDIRECT + 1
    ensures FileBlk(blocks, ip, bn) == 0 <==> bn == nb
    ensures bn < nb ==> ip.addrs[NDIRECT] != 0
    ensures bn == nb ==> (ip.addrs[NDIRECT] == 0 <==> bn == NDIRECT)
  {
  }

  lemma BytesNone(blocks: seq<Block>, ip: Inode, nb: nat, off: nat)
    requires |ip.addrs| == NDIRECT + 1
    ensures BytesWritten(blocks, ip, blocks, ip, nb, off, [])
  {
  }

  lemma IndirectThere(blocks: seq<Block>, ip: Inode, nb: nat)
    requires Extent(blocks, ip, nb)
    ensures |ip.addrs| == NDIRECT + 1 && (NDIRECT < nb ==> ip.addrs[NDIRECT] != 0)
  {
  }

  function Max(a: nat, b: nat): nat {
    if a < b then b else a
  }

  /** The block with data copied in at position at. */
  function Patch(b: Block, at: nat, data: seq<Byte>): Block
    requires at + |data| <= BSIZE
  {
    b[..at] + data + b[at + |data|..]
  }

  /** The written bytes are where they belong, and the other bytes of the file's first nb blocks are
      as they were. */
  ghost predicate BytesWritten(blocks: seq<Block>, ip: Inode, blocks': seq<Block>, ip': Inode,
                               nb: nat, off: nat, data: seq<Byte>)
  {
    && |ip.addrs| == |ip'.addrs| == NDIRECT + 1
    && (forall i {:trigger ByteAt(blocks', ip', i)} :: off <= i < off + |data| ==>
          ByteAt(blocks', ip', i) == data[i - off])
    && (forall i {:trigger ByteAt(blocks', ip', i)} ::
          0 <= i && i / BSIZE < nb && !(off <= i < off + |data|) ==> ByteAt(blocks', ip', i) == ByteAt(blocks, ip, i))
  }

  /** Inodes other than n, and their contents, are as they were. */
  ghost predicate OthersSame(blocks: seq<Block>, inodes: seq<Inode>, blocks': seq<Block>, inodes': seq<Inode>, n: nat) {
    && |inodes'| == |inodes|
    && forall m {:trigger inodes'[m]} :: 0 <= m < |inodes| && m != n ==>
         inodes'[m] == inodes[m] && |inodes[m].addrs| == NDIRECT + 1
         && Contents(blocks', inodes'[m]) == Contents(blocks, inodes[m])
  }

  /** No byte of any file has changed, in inode n's case up to its first nb blocks; of the inode only the
      addresses have, and not that of its indirect block if it had one. */
  ghost predicate FilesKept(blocks: seq<Block>, inodes: seq<Inode>, blocks': seq<Block>, inodes': seq<Inode>, n: nat,
                            nb: nat) {
    && OthersSame(blocks, inodes, blocks', inodes', n)
    && n < |inodes| && |inodes[n].addrs| == |inodes'[n].addrs| == NDIRECT + 1
    && |blocks'| == |blocks|
    && inodes'[n] == inodes[n].(addrs := inodes'[n].addrs)
    && (inodes[n].addrs[NDIRECT] != 0 ==> inodes'[n].addrs[NDIRECT] == inodes[n].addrs[NDIRECT])
    && forall i {:trigger ByteAt(blocks', inodes'[n], i)} ::
         0 <= i && i / BSIZE < nb ==> ByteAt(blocks', inodes'[n], i) == ByteAt(blocks, inodes[n], i)
  }

  lemma SameContents(blocks: seq<Block>, ip: Inode, blocks': seq<Block>, ip': Inode)
    requires |ip.addrs| == |ip'.addrs| == NDIRECT + 1 && ip.size == ip'.size
    requires forall i :: 0 <= i < ip.size ==> ByteAt(blocks', ip', i) == ByteAt(blocks, ip, i)
    ensures Contents(blocks', ip') == Contents(blocks, ip)
  {
  }

  /** Growing inode n changes no byte of any file. */
  lemma GrownFiles(nmeta: nat, bits: seq<bool>, blocks: seq<Block>, inodes: seq<Inode>, owner: map<nat, (nat, nat)>,
                   blocks': seq<Block>, inodes': seq<Inode>, owner': map<nat, (nat, nat)>, dinodes: seq<Inode>,
                   n: nat, nb: nat)
    requires OwnerOk(nmeta, bits, blocks, inodes, owner)
    requires Grown(blocks, inodes, owner, blocks', inodes', owner', n)
    requires OthersOk(blocks, inodes, dinodes, n) && Extent(blocks, inodes[n], nb)
    ensures FilesKept(blocks, inodes, blocks', inodes', n, nb)
  {
    assert Ref(blocks, inodes[n], NDIRECT) == inodes[n].addrs[NDIRECT];
    assert Ref(blocks', inodes'[n], NDIRECT) == inodes'[n].addrs[NDIRECT];
    forall i | 0 <= i && i / BSIZE < nb ensures ByteAt(blocks', inodes'[n], i) == ByteAt(blocks, inodes[n], i) {
      GrownByte(nmeta, bits, blocks, inodes, owner, blocks', inodes', owner', n, n, i);
    }
    forall m | 0 <= m < |inodes| && m != n
      ensures inodes'[m] == inodes[m] && Contents(blocks', inodes'[m]) == Contents(blocks, inodes[m])
    {
      forall i | 0 <= i < inodes[m].size ensures ByteAt(blocks', inodes'[m], i) == ByteAt(blocks, inodes[m], i) {
        InFile(i, inodes[m].size);
        GrownByte(nmeta, bits, blocks, inodes, owner, blocks', inodes', owner', n, m, i);
      }
      SameContents(blocks, inodes[m], blocks', inodes'[m]);
    }
  }

  lemma GrownByte(nmeta: nat, bits: seq<bool>, blocks: seq<Block>, inodes: seq<Inode>, owner: map<nat, (nat, nat)>,
                  blocks': seq<Block>, inodes': seq<Inode>, owner': map<nat, (nat, nat)>, n: nat, m: nat, i: nat)
    requires OwnerOk(nmeta, bits, blocks, inodes, owner)
    requires Grown(blocks, inodes, owner, blocks', inodes', owner', n)
    requires m < |inodes| && i / BSIZE < MAXFILE && FileBlk(blocks, inodes[m], i / BSIZE) != 0
    ensures ByteAt(blocks', inodes'[m], i) == ByteAt(blocks, inodes[m], i)
  {
    var k := Slot(i / BSIZE);
    assert Ref(blocks', inodes'[m], k) == Ref(blocks, inodes[m], k);
    assert owner[Ref(blocks, inodes[m], k)] == (m, k);
  }

  lemma OwnerSame(nmeta: nat, bits: seq<bool>, blocks: seq<Block>, inodes: seq<Inode>, owner: map<nat, (nat, nat)>,
                  blocks': seq<Block>)
    requires OwnerOk(nmeta, bits, blocks, inodes, owner) && |blocks'| == |blocks|
    requires forall m, j :: 0 <= m < |inodes| && 0 <= j < SLOTS ==>
          Ref(blocks', inodes[m], j) == Ref(blocks, inodes[m], j)
    ensures OwnerOk(nmeta, bits, blocks', inodes, owner)
  {
    hide Ref;
    forall m, j | 0 <= m < |inodes| && 0 <= j < SLOTS && Ref(blocks', inodes[m], j) != 0
      ensures Ref(blocks', inodes[m], j) in owner && owner[Ref(blocks', inodes[m], j)] == (m, j)
    {
      assert Ref(blocks', inodes[m], j) == Ref(blocks, inodes[m], j);
    }
    forall b | b in owner ensures Ref(blocks', inodes[owner[b].0], owner[b].1) == b {
      assert Ref(blocks, inodes[owner[b].0], owner[b].1) == b;
    }
  }

  /** Writing a data block changes no slot, so ownership and extents stand. */
  lemma DataRefs(nmeta: nat, bits: seq<bool>, blocks: seq<Block>, inodes: seq<Inode>, owner: map<nat, (nat, nat)>,
                 n: nat, k: nat, b: nat, x: Block)
    requires OwnerOk(nmeta, bits, blocks, inodes, owner)
    requires n < |inodes| && k < SLOTS && k != NDIRECT && Ref(blocks, inodes[n], k) == b != 0
    ensures b < |blocks|
    ensures forall m, j :: 0 <= m < |inodes| && 0 <= j < SLOTS
              ==> Ref(blocks[b := x], inodes[m], j) == Ref(blocks, inodes[m], j)
    ensures OwnerOk(nmeta, bits, blocks[b := x], inodes, owner)
  {
    forall m, j | 0 <= m < |inodes| && 0 <= j < SLOTS
      ensures Ref(blocks[b := x], inodes[m], j) == Ref(blocks, inodes[m], j)
    {
      assert Ref(blocks, inodes[m], NDIRECT) == inodes[m].addrs[NDIRECT];
    }
    OwnerSame(nmeta, bits, blocks, inodes, owner, blocks[b := x]);
  }

  lemma ExtentSame(blocks: seq<Block>, ip: Inode, blocks': seq<Block>, nb: nat)
    requires Extent(blocks, ip, nb)
    requires forall j :: 0 <= j < SLOTS ==> Ref(blocks', ip, j) == Ref(blocks, ip, j)
    ensures Extent(blocks', ip, nb)
  {
    forall c | 0 <= c < MAXFILE ensures FileBlk(blocks', ip, c) != 0 <==> c < nb {
      assert FileBlk(blocks, ip, c) != 0 <==> c < nb;
      assert Ref(blocks', ip, Slot(c)) == Ref(blocks, ip, Slot(c));
    }
  }

  /** Writing inode n's block number bn. */
  lemma DataWrite(nmeta: nat, bits: seq<bool>, blocks: seq<Block>, inodes: seq<Inode>, owner: map<nat, (nat, nat)>,
                  dinodes: seq<Inode>, n: nat, bn: nat, nb: nat, x: Block)
    requires OwnerOk(nmeta, bits, blocks, inodes, owner) && OthersOk(blocks, inodes, dinodes, n)
    requires n < |inodes| && Extent(blocks, inodes[n], nb) && bn < nb
    ensures 0 < FileBlk(blocks, inodes[n], bn) < |blocks|
    ensures var blocks' := blocks[FileBlk(blocks, inodes[n], bn) := x];
            OwnerOk(nmeta, bits, blocks', inodes, owner) && OthersOk(blocks', inodes, dinodes, n)
            && Extent(blocks', inodes[n], nb)
            && OthersSame(blocks, inodes, blocks', inodes, n)
            && (forall i {:trigger ByteAt(blocks', inodes[n], i)} :: 0 <= i && i / BSIZE < nb
                  ==> ByteAt(blocks', inodes[n], i) == if i / BSIZE == bn then x[i % BSIZE]
                      else ByteAt(blocks, inodes[n], i))
  {
    var b, k := FileBlk(blocks, inodes[n], bn), Slot(bn);
    assert Ref(blocks, inodes[n], k) == b != 0;
    DataRefs(nmeta, bits, blocks, inodes, owner, n, k, b, x);
    var blocks' := blocks[b := x];
    ExtentSame(blocks, inodes[n], blocks', nb);
    forall m | 0 <= m < |inodes| && m != n
      ensures Extent(blocks', inodes[m], BlocksFor(inodes[m].size))
      ensures Contents(blocks', inodes[m]) == Contents(blocks, inodes[m])
    {
      ExtentSame(blocks, inodes[m], blocks', BlocksFor(inodes[m].size));
      forall i | 0 <= i < inodes[m].size ensures ByteAt(blocks', inodes[m], i) == ByteAt(blocks, inodes[m], i) {
        InFile(i, inodes[m].size);
        OtherByte(nmeta, bits, blocks, inodes, owner, n, k, b, x, m, i);
      }
      SameContents(blocks, inodes[m], blocks', inodes[m]);
    }
    forall i | 0 <= i && i / BSIZE < nb
      ensures ByteAt(blocks', inodes[n], i) == if i / BSIZE == bn then x[i % BSIZE] else ByteAt(blocks, inodes[n], i)
    {
      if i / BSIZE == bn {
        assert Ref(blocks', inodes[n], k) == b;
      } else {
        OtherByte(nmeta, bits, blocks, inodes, owner, n, k, b, x, n, i);
      }
    }
  }

  /** What bmap and the copy into the block do together. */
  lemma WriteEffect(nmeta: nat, bits: seq<bool>, blocks: seq<Block>, inodes: seq<Inode>,
                    blocks1: seq<Block>, inodes1: seq<Inode>, owner1: map<nat, (nat, nat)>,
                    dinodes: seq<Inode>, n: nat, nb: nat, off: nat, data: seq<Byte>)
    requires OwnerOk(nmeta, bits, blocks1, inodes1, owner1) && OthersOk(blocks1, inodes1, dinodes, n)
    requires FilesKept(blocks, inodes, blocks1, inodes1, n, nb)
    requires off % BSIZE + |data| <= BSIZE
    requires Extent(blocks1, inodes1[n], Max(nb, off / BSIZE + 1))
    ensures 0 < FileBlk(blocks1, inodes1[n], off / BSIZE) < |blocks1|
    ensures var b := FileBlk(blocks1, inodes1[n], off / BSIZE);
            var blocks' := blocks1[b := Patch(blocks1[b], off % BSIZE, data)];
            OwnerOk(nmeta, bits, blocks', inodes1, owner1) && OthersOk(blocks', inodes1, dinodes, n)
            && Extent(blocks', inodes1[n], Max(nb, off / BSIZE + 1))
            && OthersSame(blocks, inodes, blocks', inodes1, n)
            && BytesWritten(blocks, inodes[n], blocks', inodes1[n], nb, off, data)
  {
    var bn, nb1 := off / BSIZE, Max(nb, off / BSIZE + 1);
    var b := FileBlk(blocks1, inodes1[n], bn);
    assert Ref(blocks1, inodes1[n], Slot(bn)) == b != 0;
    var x := Patch(blocks1[b], off % BSIZE, data);
    DataWrite(nmeta, bits, blocks1, inodes1, owner1, dinodes, n, bn, nb1, x);
    var blocks' := blocks1[b := x];
    BytesAfter(blocks, inodes[n], blocks1, blocks', inodes1[n], bn, nb, nb1, off, data);
    OthersTrans(blocks, inodes, blocks1, inodes1, blocks', inodes1, n);
  }

  lemma OthersTrans(blocks: seq<Block>, inodes: seq<Inode>, blocks1: seq<Block>, inodes1: seq<Inode>,
                    blocks2: seq<Block>, inodes2: seq<Inode>, n: nat)
    requires OthersSame(blocks, inodes, blocks1, inodes1, n) && OthersSame(blocks1, inodes1, blocks2, inodes2, n)
    ensures OthersSame(blocks, inodes, blocks2, inodes2, n)
  {
    hide Contents;
    forall m | 0 <= m < |inodes| && m != n
      ensures inodes2[m] == inodes[m] && Contents(blocks2, inodes2[m]) == Contents(blocks, inodes[m])
    {
      assert inodes1[m] == inodes[m] && Contents(blocks1, inodes1[m]) == Contents(blocks, inodes[m]);
    }
  }

  /** A byte in another slot's block is not touched. */
  lemma OtherByte(nmeta: nat, bits: seq<bool>, blocks: seq<Block>, inodes: seq<Inode>, owner: map<nat, (nat, nat)>,
                  n: nat, k: nat, b: nat, x: Block, m: nat, i: nat)
    requires OwnerOk(nmeta, bits, blocks, inodes, owner)
    requires n < |inodes| && k < SLOTS && k != NDIRECT && Ref(blocks, inodes[n], k) == b != 0 && b < |blocks|
    requires m < |inodes| && i / BSIZE < MAXFILE && (m, Slot(i / BSIZE)) != (n, k)
    requires FileBlk(blocks, inodes[m], i / BSIZE) != 0
    ensures ByteAt(blocks[b := x], inodes[m], i) == ByteAt(blocks, inodes[m], i)
  {
    DataRefs(nmeta, bits, blocks, inodes, owner, n, k, b, x);
    var j := Slot(i / BSIZE);
    assert Ref(blocks[b := x], inodes[m], j) == Ref(blocks, inodes[m], j);
    assert owner[Ref(blocks, inodes[m], j)] == (m, j) && owner[b] == (n, k);
  }

  lemma BytesAfter(blocks0: seq<Block>, ip0: Inode, blocks1: seq<Block>, blocks: seq<Block>, ip: Inode, bn: nat,
                   nb: nat, nb1: nat, off: nat, data: seq<Byte>)
    requires |ip0.addrs| == |ip.addrs| == NDIRECT + 1 && bn == off / BSIZE < nb1 && nb <= nb1
    requires off % BSIZE + |data| <= BSIZE && FileBlk(blocks1, ip, bn) < |blocks1|
    requires forall i {:trigger ByteAt(blocks1, ip, i)} :: 0 <= i && i / BSIZE < nb ==>
          ByteAt(blocks1, ip, i) == ByteAt(blocks0, ip0, i)
    requires forall i {:trigger ByteAt(blocks, ip, i)} :: 0 <= i && i / BSIZE < nb1 ==>
               ByteAt(blocks, ip, i)
               == if i / BSIZE == bn then Patch(blocks1[FileBlk(blocks1, ip, bn)], off % BSIZE, data)[i % BSIZE]
                  else ByteAt(blocks1, ip, i)
    ensures BytesWritten(blocks0, ip0, blocks, ip, nb, off, data)
  {
    var b := FileBlk(blocks1, ip, bn);
    var x := Patch(blocks1[b], off % BSIZE, data);
    forall i | off <= i < off + |data| ensures ByteAt(blocks, ip, i) == data[i - off] {
      InBlock(off, i);
    }
    forall i | 0 <= i && i / BSIZE < nb && !(off <= i < off + |data|)
      ensures ByteAt(blocks, ip, i) == ByteAt(blocks0, ip0, i)
    {
      if i / BSIZE == bn {
        InBlockOut(off, |data|, i);
        assert ByteAt(blocks1, ip, i) == blocks1[b][i % BSIZE];
        assert x[i % BSIZE] == blocks1[b][i % BSIZE];
      }
    }
  }

  lemma InBlock(off: nat, i: nat)
    requires off <= i && off % BSIZE + (i - off) < BSIZE
    ensures i / BSIZE == off / BSIZE && i % BSIZE == off % BSIZE + (i - off)
  {
  }

  lemma InBlockOut(off: nat, len: nat, i: nat)
    requires i / BSIZE == off / BSIZE && !(off <= i < off + len)
    ensures i % BSIZE < off % BSIZE || i % BSIZE >= off % BSIZE + len
  {
  }

  /** Allocating the indirect block if needed, and then an entry of it. */
  lemma EntryGrowth(nmeta: nat, bits: seq<bool>,
                    blocks: seq<Block>, inodes: seq<Inode>, owner: map<nat, (nat, nat)>,
                    blocks1: seq<Block>, inodes1: seq<Inode>, owner1: map<nat, (nat, nat)>,
                    blocks2: seq<Block>, inodes2: seq<Inode>, owner2: map<nat, (nat, nat)>,
                    dinodes: seq<Inode>, n: nat, j: nat, b: nat)
    requires OwnerOk(nmeta, bits, blocks, inodes, owner)
    requires j < NINDIRECT
    requires Grown(blocks, inodes, owner, blocks1, inodes1, owner1, n)
    requires OthersOk(blocks, inodes, dinodes, n) && Extent(blocks, inodes[n], NDIRECT + j)
    requires forall i :: 0 <= i < SLOTS && i != NDIRECT ==> Ref(blocks1, inodes1[n], i) == Ref(blocks, inodes[n], i)
    requires Ref(blocks1, inodes1[n], NDIRECT + 1 + j) == 0 && inodes1[n].addrs[NDIRECT] != 0
    requires FilledBy(blocks1, inodes1, owner1, blocks2, inodes2, owner2, n, NDIRECT + 1 + j, b)
    ensures FilesKept(blocks, inodes, blocks2, inodes2, n, NDIRECT + j)
    ensures Extent(blocks2, inodes2[n], NDIRECT + j + 1)
    ensures OthersOk(blocks2, inodes2, dinodes, n)
    ensures b !in owner && FileBlk(blocks2, inodes2[n], NDIRECT + j) == b
    ensures OwnerKept(owner, owner2) && b in owner2 && owner2[b] == (n, NDIRECT + 1 + j)
  {
    GrownOnce(blocks1, inodes1, owner1, blocks2, inodes2, owner2, n, NDIRECT + 1 + j, b);
    GrownTwice(blocks, inodes, owner, blocks1, inodes1, owner1, blocks2, inodes2, owner2, n);
    assert Ref(blocks2, inodes2[n], NDIRECT) == Ref(blocks1, inodes1[n], NDIRECT);
    ExtentMore(blocks, inodes[n], blocks2, inodes2[n], NDIRECT + j, b);
    GrownOthers(blocks, inodes, owner, blocks2, inodes2, owner2, dinodes, n);
    GrownFiles(nmeta, bits, blocks, inodes, owner, blocks2, inodes2, owner2, dinodes, n, NDIRECT + j);
  }

  /** After a growth of inode n, the other files still have exactly the blocks they need. */
  lemma GrownOthers(blocks: seq<Block>, inodes: seq<Inode>, owner: map<nat, (nat, nat)>,
                    blocks': seq<Block>, inodes': seq<Inode>, owner': map<nat, (nat, nat)>,
                    dinodes: seq<Inode>, n: nat)
    requires Grown(blocks, inodes, owner, blocks', inodes', owner', n)
    requires OthersOk(blocks, inodes, dinodes, n)
    ensures OthersOk(blocks', inodes', dinodes, n)
  {
    forall m | 0 <= m < |inodes| && m != n ensures Extent(blocks', inodes'[m], BlocksFor(inodes'[m].size)) {
      forall bn | 0 <= bn < MAXFILE ensures FileBlk(blocks', inodes'[m], bn) == FileBlk(blocks, inodes[m], bn) {
        assert Ref(blocks', inodes'[m], Slot(bn)) == Ref(blocks, inodes[m], Slot(bn));
      }
    }
  }

  lemma GrownNot(blocks: seq<Block>, inodes: seq<Inode>, owner: map<nat, (nat, nat)>, n: nat)
    requires n < |inodes| && forall m :: 0 <= m < |inodes| ==> |inodes[m].addrs| == NDIRECT + 1
    ensures Grown(blocks, inodes, owner, blocks, inodes, owner, n)
  {
  }

  /** Inode n only gained blocks: slots in use keep their blocks, owned blocks keep owner and
      contents, except that n's indirect block gains entries. */
  ghost predicate Grown(blocks: seq<Block>, inodes: seq<Inode>, owner: map<nat, (nat, nat)>,
                        blocks': seq<Block>, inodes': seq<Inode>, owner': map<nat, (nat, nat)>, n: nat)
  {
    && |inodes'| == |inodes| && |blocks'| == |blocks| && n < |inodes|
    && inodes' == inodes[n := inodes[n].(addrs := inodes'[n].addrs)]
    && (forall m :: 0 <= m < |inodes| ==> |inodes[m].addrs| == |inodes'[m].addrs| == NDIRECT + 1)
    && (forall m, k :: 0 <= m < |inodes| && 0 <= k < SLOTS && (m != n || Ref(blocks, inodes[m], k) != 0)
          ==> Ref(blocks', inodes'[m], k) == Ref(blocks, inodes[m], k))
    && (forall c :: c in owner ==> c in owner' && owner'[c] == owner[c])
    && (forall c :: c in owner && c < |blocks| && owner[c] != (n, NDIRECT) ==> blocks'[c] == blocks[c])
  }

  lemma GrownOnce(blocks: seq<Block>, inodes: seq<Inode>, owner: map<nat, (nat, nat)>,
                  blocks': seq<Block>, inodes': seq<Inode>, owner': map<nat, (nat, nat)>, n: nat, k: nat, b: nat)
    requires FilledBy(blocks, inodes, owner, blocks', inodes', owner', n, k, b)
    requires k < SLOTS && Ref(blocks, inodes[n], k) == 0
    ensures Grown(blocks, inodes, owner, blocks', inodes', owner', n)
  {
  }

  lemma GrownTwice(blocks: seq<Block>, inodes: seq<Inode>, owner: map<nat, (nat, nat)>,
                   blocks1: seq<Block>, inodes1: seq<Inode>, owner1: map<nat, (nat, nat)>,
                   blocks2: seq<Block>, inodes2: seq<Inode>, owner2: map<nat, (nat, nat)>, n: nat)
    requires Grown(blocks, inodes, owner, blocks1, inodes1, owner1, n)
    requires Grown(blocks1, inodes1, owner1, blocks2, inodes2, owner2, n)
    ensures Grown(blocks, inodes, owner, blocks2, inodes2, owner2, n)
  {
    forall m, k | 0 <= m < |inodes| && 0 <= k < SLOTS && (m != n || Ref(blocks, inodes[m], k) != 0)
      ensures Ref(blocks2, inodes2[m], k) == Ref(blocks, inodes[m], k)
    {
      assert Ref(blocks1, inodes1[m], k) == Ref(blocks, inodes[m], k);
    }
  }

  /** Filling the first missing block lengthens the extent by one. */
  lemma ExtentMore(blocks: seq<Block>, ip: Inode, blocks': seq<Block>, ip': Inode, bn: nat, b: nat)
    requires Extent(blocks, ip, bn) && bn < MAXFILE && b != 0
    requires |ip'.addrs| == NDIRECT + 1
    requires forall k :: 0 <= k < SLOTS && k != NDIRECT
               ==> Ref(blocks', ip', k) == if k == Slot(bn) then b else Ref(blocks, ip, k)
    requires ip'.addrs[NDIRECT] != 0 <==> NDIRECT <= bn
    ensures Extent(blocks', ip', bn + 1)
  {
    forall c | 0 <= c < MAXFILE ensures FileBlk(blocks', ip', c) != 0 <==> c < bn + 1 {
      assert FileBlk(blocks, ip, c) != 0 <==> c < bn;
      assert Ref(blocks', ip', Slot(c)) == if Slot(c) == Slot(bn) then b else Ref(blocks, ip, Slot(c));
    }
  }

  /** Slot (n, k) received the unowned block b; besides b, only inode n's indirect block may have
      changed, and of the inodes only n's addresses. */
  ghost predicate FilledBy(blocks: seq<Block>, inodes: seq<Inode>, owner: map<nat, (nat, nat)>,
                           blocks': seq<Block>, inodes': seq<Inode>, owner': map<nat, (nat, nat)>,
                           n: nat, k: nat, b: nat)
  {
    && SlotFilled(blocks, inodes, blocks', inodes', n, k, b)
    && b !in owner && b != 0 && owner' == owner[b := (n, k)]
    && (forall c :: c in owner && c < |blocks| && owner[c] != (n, NDIRECT) ==> blocks'[c] == blocks[c])
    && n < |inodes| && inodes' == inodes[n := inodes[n].(addrs := inodes'[n].addrs)]
  }
}
