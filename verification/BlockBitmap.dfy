/** The free map: one bit per disk block, packed into the bytes of the bitmap blocks.  A byte is the
    sequence of its eight bits, so that testing, setting and clearing it through the mask 1 << k is
    testing and replacing element k. */
module BlockBitmap {
  import opened Common

  const BSIZE: nat := 512
  const BPB: nat := 4096

  type BitByte = x: seq<bool> | |x| == 8 witness seq(8, i => false)

  /** The bitmap blocks cover all the blocks of the disk. */
  ghost predicate Covers(bytes: seq<seq<BitByte>>, size: nat) {
    && |bytes| * BPB >= size
    && forall i :: 0 <= i < |bytes| ==> |bytes[i]| == BSIZE
  }

  lemma InRange(bytes: seq<seq<BitByte>>, size: nat, b: nat)
    requires Covers(bytes, size) && b < size
    ensures b / BPB < |bytes| && b % BPB / 8 < BSIZE
  {
  }

  /** The bit of block b: bitmap block b / BPB, byte (b % BPB) / 8, bit b % 8. */
  predicate Test(bytes: seq<seq<BitByte>>, b: nat) {
    b / BPB < |bytes| && |bytes[b / BPB]| == BSIZE && bytes[b / BPB][b % BPB / 8][b % BPB % 8]
  }

  function Replace(bytes: seq<seq<BitByte>>, b: nat, used: bool): seq<seq<BitByte>>
    requires b / BPB < |bytes| && |bytes[b / BPB]| == BSIZE
  {
    var i, p, k := b / BPB, b % BPB / 8, b % BPB % 8;
    bytes[i := bytes[i][p := bytes[i][p][k := used]]]
  }

  /** The position of a bit determines its block. */
  lemma Position(b: nat, c: nat)
    requires b / BPB == c / BPB && b % BPB / 8 == c % BPB / 8 && b % BPB % 8 == c % BPB % 8
    ensures b == c
  {
  }

  /** Replacing one bit leaves the bits of all other blocks alone. */
  lemma ReplaceTest(bytes: seq<seq<BitByte>>, size: nat, b: nat, used: bool, c: nat)
    requires Covers(bytes, size) && b < size && c < size && b / BPB < |bytes|
    ensures Test(Replace(bytes, b, used), c) <==> if b == c then used else Test(bytes, c)
  {
    InRange(bytes, size, c);
    if b / BPB == c / BPB && b % BPB / 8 == c % BPB / 8 && b % BPB % 8 == c % BPB % 8 {
      Position(b, c);
    }
  }

  /** The bytes that say what `bits` does. */
  function Packed(bits: seq<bool>): seq<seq<BitByte>> {
    seq(|bits| / BPB + 1, i => seq(BSIZE, p => seq(8, k => Bit(bits, i * BPB + p * 8 + k))))
  }

  predicate Bit(bits: seq<bool>, b: int) {
    0 <= b < |bits| && bits[b]
  }

  lemma PackedTest(bits: seq<bool>, b: nat)
    requires b < |bits|
    ensures Covers(Packed(bits), |bits|) && Test(Packed(bits), b) == bits[b]
  {
    InRange(Packed(bits), |bits|, b);
    var i, p, k := b / BPB, b % BPB / 8, b % BPB % 8;
    assert i * BPB + p * 8 + k == b;
    assert Packed(bits)[i][p][k] == Bit(bits, i * BPB + p * 8 + k);
  }

  /** `bits` is what the packed bytes say, block by block. */
  class Bitmap {
    const size: nat
    var bytes: seq<seq<BitByte>>
    ghost var bits: seq<bool>

    ghost predicate Valid()
      reads this
    {
      && Covers(bytes, size) && |bits| == size
      && forall b {:trigger Test(bytes, b)} :: 0 <= b < size ==> bits[b] == Test(bytes, b)
    }

    constructor (bytes: seq<seq<BitByte>>, size: nat)
      requires Covers(bytes, size)
      ensures Valid() && this.bytes == bytes && this.size == size
    {
      this.size := size;
      this.bytes := bytes;
      bits := seq(size, b requires 0 <= b < size => Test(bytes, b));
    }

    /** balloc's search: the first free block, marked in use; none where the source panics. */
    method Balloc() returns (r: Option<nat>)
      requires Valid()
      modifies this
      ensures Valid()
      ensures r.Some? ==> r.value < size && !old(bits)[r.value] && bits == old(bits)[r.value := true]
      ensures r.Some? ==> forall c :: 0 <= c < r.value ==> old(bits)[c]
      ensures r.None? ==> bits == old(bits) && forall c :: 0 <= c < size ==> bits[c]
    {
      var b := 0;
      while b < size
        invariant 0 <= b && b % BPB == 0
        invariant Valid() && bytes == old(bytes) && bits == old(bits)
        invariant forall c :: 0 <= c < b && c < size ==> bits[c]
      {
        var bi := 0;
        while bi < BPB && b + bi < size
          invariant 0 <= bi <= BPB && b + bi <= size
          invariant Valid() && bytes == old(bytes) && bits == old(bits)
          invariant forall c :: 0 <= c < b + bi ==> bits[c]
        {
          InRange(bytes, size, b + bi);
          SamePlace(b, bi);
          assert bits[b + bi] == Test(bytes, b + bi);
          if !bytes[b / BPB][bi / 8][bi % 8] {
            Mark(b + bi, true);
            return Some(b + bi);
          }
          bi := bi + 1;
        }
        b := b + BPB;
      }
      r := None;
    }

    /** bfree: ok is false where the source panics because the block is already free. */
    method Bfree(b: nat) returns (ok: bool)
      requires Valid() && b < size
      modifies this
      ensures Valid()
      ensures ok == old(bits)[b]
      ensures bits == if ok then old(bits)[b := false] else old(bits)
    {
      InRange(bytes, size, b);
      var bi := b % BPB;
      assert bits[b] == Test(bytes, b);
      if !bytes[b / BPB][bi / 8][bi % 8] {
        return false;
      }
      Mark(b, false);
      ok := true;
    }

    method Mark(b: nat, used: bool)
      requires Valid() && b < size
      modifies this
      ensures Valid() && bits == old(bits)[b := used]
    {
      InRange(bytes, size, b);
      ghost var was := bytes;
      bytes := Replace(bytes, b, used);
      forall c | 0 <= c < size ensures Test(bytes, c) == if b == c then used else bits[c] {
        ReplaceTest(was, size, b, used, c);
        assert bits[c] == Test(was, c);
      }
      bits := bits[b := used];
    }
  }

  lemma SamePlace(b: nat, bi: nat)
    requires b % BPB == 0 && bi < BPB
    ensures (b + bi) / BPB == b / BPB && (b + bi) % BPB == bi
  {
  }
}
