/** The invalid-entry bitmap: single bits, and whole bitmaps combined word by word. */
module BitMaps {
  // ---------------------------------------------------------------- bits of a byte

  /** `1 << (7 - k)`: bit 0 of a byte is its highest. */
  function Mask(k: nat): (m: bv8)
    requires k < 8
    ensures m != 0
  {
    if k == 0 then 0x80 else if k == 1 then 0x40 else if k == 2 then 0x20 else if k == 3 then 0x10
    else if k == 4 then 0x08 else if k == 5 then 0x04 else if k == 6 then 0x02 else 0x01
  }

  predicate BitOf(b: bv8, k: nat)
    requires k < 8
  {
    b & Mask(k) != 0
  }

  /** Sets or clears bit `k`, as `SetBit` does with two masks. */
  function WithBit(b: bv8, k: nat, on: bool): bv8
    requires k < 8
  {
    (b & !Mask(k)) | (if on then Mask(k) else 0)
  }

  lemma WithBitIs(b: bv8, k: nat, on: bool, j: nat)
    requires k < 8 && j < 8
    ensures BitOf(WithBit(b, k, on), j) == if j == k then on else BitOf(b, j)
  {}

  // ---------------------------------------------------------------- words

  /** Eight bytes, as they lie in memory. */
  datatype Word = Word(b0: bv8, b1: bv8, b2: bv8, b3: bv8, b4: bv8, b5: bv8, b6: bv8, b7: bv8)

  /** Eight bytes read as one machine word, lowest byte first. */
  function Load(x: Word): bv64 {
    (x.b0 as bv64) | ((x.b1 as bv64) << 8) | ((x.b2 as bv64) << 16) | ((x.b3 as bv64) << 24) |
    ((x.b4 as bv64) << 32) | ((x.b5 as bv64) << 40) | ((x.b6 as bv64) << 48) | ((x.b7 as bv64) << 56)
  }

  function Low8(w: bv64): bv8 { (w & 0xFF) as bv8 }

  /** The bytes a machine word is stored as. */
  function Store(w: bv64): Word {
    Word(Low8(w), Low8(w >> 8), Low8(w >> 16), Low8(w >> 24),
         Low8(w >> 32), Low8(w >> 40), Low8(w >> 48), Low8(w >> 56))
  }

  // ---------------------------------------------------------------- operations

  /** A bitwise operation, on bits, on bytes and on machine words. */
  datatype Op = Op(bit: (bool, bool) -> bool, byte: (bv8, bv8) -> bv8, word: (bv64, bv64) -> bv64)

  const AND := Op((a, b) => a && b, (a, b) => a & b, (a, b) => a & b)
  const OR := Op((a, b) => a || b, (a, b) => a | b, (a, b) => a | b)
  const XOR := Op((a, b) => a != b, (a, b) => a ^ b, (a, b) => a ^ b)

  datatype BitOpsType = BitAnd | BitOr | BitXor

  function OpOf(kind: BitOpsType): Op {
    match kind case BitAnd => AND case BitOr => OR case BitXor => XOR
  }

  function OpBytes(op: Op, x: Word, y: Word): Word {
    Word(op.byte(x.b0, y.b0), op.byte(x.b1, y.b1), op.byte(x.b2, y.b2), op.byte(x.b3, y.b3),
         op.byte(x.b4, y.b4), op.byte(x.b5, y.b5), op.byte(x.b6, y.b6), op.byte(x.b7, y.b7))
  }

  /** The operation on words is the one on each byte. */
  ghost predicate ByBytes(op: Op) {
    forall x, y {:trigger op.word(Load(x), Load(y))} :: Store(op.word(Load(x), Load(y))) == OpBytes(op, x, y)
  }

  /** The operation on bytes is the one on each bit. */
  ghost predicate ByBits(op: Op) {
    forall a, b, k: nat | k < 8 :: BitOf(op.byte(a, b), k) == op.bit(BitOf(a, k), BitOf(b, k))
  }

  ghost predicate Bitwise(op: Op) { ByBytes(op) && ByBits(op) }

  /** A mask picks one bit, and each operation works on each bit by itself. */
  lemma MaskOps(a: bv8, b: bv8, k: nat)
    requires k < 8
    ensures (a & b) & Mask(k) != 0 <==> a & Mask(k) != 0 && b & Mask(k) != 0
    ensures (a | b) & Mask(k) != 0 <==> a & Mask(k) != 0 || b & Mask(k) != 0
    ensures (a ^ b) & Mask(k) != 0 <==> (a & Mask(k) != 0) != (b & Mask(k) != 0)
  {}

  lemma AndWord(x: Word, y: Word)
    ensures Store(Load(x) & Load(y)) ==
            Word(x.b0 & y.b0, x.b1 & y.b1, x.b2 & y.b2, x.b3 & y.b3, x.b4 & y.b4, x.b5 & y.b5, x.b6 & y.b6, x.b7 & y.b7)
  {}

  lemma OrWord(x: Word, y: Word)
    ensures Store(Load(x) | Load(y)) ==
            Word(x.b0 | y.b0, x.b1 | y.b1, x.b2 | y.b2, x.b3 | y.b3, x.b4 | y.b4, x.b5 | y.b5, x.b6 | y.b6, x.b7 | y.b7)
  {}

  lemma XorWord(x: Word, y: Word)
    ensures Store(Load(x) ^ Load(y)) ==
            Word(x.b0 ^ y.b0, x.b1 ^ y.b1, x.b2 ^ y.b2, x.b3 ^ y.b3, x.b4 ^ y.b4, x.b5 ^ y.b5, x.b6 ^ y.b6, x.b7 ^ y.b7)
  {}

  lemma AndWordBytes(x: Word, y: Word, w: bv64)
    requires w == Load(x) & Load(y)
    ensures Store(w) == OpBytes(AND, x, y)
  {
    AndWord(x, y);
  }

  lemma AndByBytes()
    ensures ByBytes(AND)
  {
    forall x, y
      ensures Store(AND.word(Load(x), Load(y))) == OpBytes(AND, x, y)
    {
      AndWordBytes(x, y, AND.word(Load(x), Load(y)));
    }
  }

  lemma AndByBits()
    ensures ByBits(AND)
  {
    forall a, b, k: nat | k < 8
      ensures BitOf(AND.byte(a, b), k) == AND.bit(BitOf(a, k), BitOf(b, k))
    {
      MaskOps(a, b, k);
    }
  }

  lemma OrWordBytes(x: Word, y: Word, w: bv64)
    requires w == Load(x) | Load(y)
    ensures Store(w) == OpBytes(OR, x, y)
  {
    OrWord(x, y);
  }

  lemma OrByBytes()
    ensures ByBytes(OR)
  {
    forall x, y
      ensures Store(OR.word(Load(x), Load(y))) == OpBytes(OR, x, y)
    {
      OrWordBytes(x, y, OR.word(Load(x), Load(y)));
    }
  }

  lemma OrByBits()
    ensures ByBits(OR)
  {
    forall a, b, k: nat | k < 8
      ensures BitOf(OR.byte(a, b), k) == OR.bit(BitOf(a, k), BitOf(b, k))
    {
      MaskOps(a, b, k);
    }
  }

  lemma XorWordBytes(x: Word, y: Word, w: bv64)
    requires w == Load(x) ^ Load(y)
    ensures Store(w) == OpBytes(XOR, x, y)
  {
    XorWord(x, y);
  }

  lemma XorByBytes()
    ensures ByBytes(XOR)
  {
    forall x, y
      ensures Store(XOR.word(Load(x), Load(y))) == OpBytes(XOR, x, y)
    {
      XorWordBytes(x, y, XOR.word(Load(x), Load(y)));
    }
  }

  lemma XorByBits()
    ensures ByBits(XOR)
  {
    forall a, b, k: nat | k < 8
      ensures BitOf(XOR.byte(a, b), k) == XOR.bit(BitOf(a, k), BitOf(b, k))
    {
      MaskOps(a, b, k);
    }
  }

  /** The three operations the source has. */
  lemma OpsAreBitwise()
    ensures Bitwise(AND) && Bitwise(OR) && Bitwise(XOR)
  {
    AndByBytes();
    AndByBits();
    OrByBytes();
    OrByBits();
    XorByBytes();
    XorByBits();
  }

  // ---------------------------------------------------------------- bitmaps

  /** Bit `i` of a bitmap: bit `i % 8` of byte `i / 8`. */
  predicate GetIn(bytes: seq<bv8>, i: nat)
    requires i < 8 * |bytes|
  {
    BitOf(bytes[i / 8], i % 8)
  }

  const WORD: nat := 8

  function WordAt(a: array<bv8>, at: nat): Word
    requires at + WORD <= a.Length
    reads a
  {
    Word(a[at], a[at + 1], a[at + 2], a[at + 3], a[at + 4], a[at + 5], a[at + 6], a[at + 7])
  }

  /** The bytes of `a` from `lo` to `hi` have been combined with those of `b`; the rest are as they were. */
  twostate predicate Combined(op: Op, a: array<bv8>, b: array<bv8>, lo: nat, hi: nat)
    requires lo <= hi <= a.Length && hi <= b.Length
    reads a
  {
    forall k | 0 <= k < a.Length :: a[k] == if lo <= k < hi then op.byte(old(a[k]), old(b[k])) else old(a[k])
  }

  method Compute(op: Op, x: Word, y: Word) returns (w: Word)
    requires ByBytes(op)
    ensures w == OpBytes(op, x, y)
  {
    w := Store(op.word(Load(x), Load(y)));
  }

  method PutWord(a: array<bv8>, at: nat, w: Word)
    requires at + WORD <= a.Length
    modifies a
    ensures WordAt(a, at) == w
    ensures forall k | 0 <= k < a.Length && !(at <= k < at + WORD) :: a[k] == old(a[k])
  {
    a[at], a[at + 1], a[at + 2], a[at + 3] := w.b0, w.b1, w.b2, w.b3;
    a[at + 4], a[at + 5], a[at + 6], a[at + 7] := w.b4, w.b5, w.b6, w.b7;
  }

  method PlaceWord(ghost op: Op, a: array<bv8>, ghost b: array<bv8>, at: nat, w: Word)
    requires at + WORD <= a.Length && at + WORD <= b.Length && w == OpBytes(op, WordAt(a, at), WordAt(b, at))
    modifies a
    ensures Combined(op, a, b, at, at + WORD)
  {
    PutWord(a, at, w);
    forall k | at <= k < at + WORD
      ensures a[k] == op.byte(old(a[k]), old(b[k]))
    {
      assert k == at || k == at + 1 || k == at + 2 || k == at + 3 ||
             k == at + 4 || k == at + 5 || k == at + 6 || k == at + 7;
    }
  }

  /** One word of the fast path: `lres[i] op= lp[i]`. */
  method CombineWord(op: Op, a: array<bv8>, b: array<bv8>, at: nat)
    requires ByBytes(op) && at + WORD <= a.Length && at + WORD <= b.Length
    modifies a
    ensures Combined(op, a, b, at, at + WORD)
  {
    var w := Compute(op, WordAt(a, at), WordAt(b, at));
    PlaceWord(op, a, b, at, w);
  }

  /** The fast path and the byte tail together, on the first `size` bytes. `b` may be the same array as `a`. */
  method CombineBytes(op: Op, a: array<bv8>, b: array<bv8>, size: nat)
    requires ByBytes(op) && size <= a.Length && size <= b.Length
    modifies a
    ensures Combined(op, a, b, 0, size)
  {
    var remain: nat, j: nat := size, 0;
    while remain >= 4 * WORD
      invariant j + remain == size && Combined(op, a, b, 0, j)
      invariant forall k | j <= k < b.Length :: b[k] == old(b[k])
    {
      CombineWord(op, a, b, j);
      CombineWord(op, a, b, j + WORD);
      CombineWord(op, a, b, j + 2 * WORD);
      CombineWord(op, a, b, j + 3 * WORD);
      j := j + 4 * WORD;
      remain := remain - 4 * WORD;
    }
    while j < size
      invariant j <= size && Combined(op, a, b, 0, j)
      invariant forall k | j <= k < b.Length :: b[k] == old(b[k])
    {
      a[j] := op.byte(a[j], b[j]);
      j := j + 1;
    }
  }

  class BitMap {
    var validBits: nat
    var byteSize: nat
    var bits: array?<bv8>

    /** Enough bytes for every offset that passes the range check. */
    predicate Valid()
      reads this, bits
    {
      bits != null && validBits / 8 < bits.Length && byteSize <= bits.Length
    }

    /** The byte count covers every valid bit; false for a bitmap that was moved into. */
    predicate Whole()
      reads this
    {
      validBits / 8 < byteSize
    }

    /** The bit at an offset that passes the range check. */
    predicate Bit(i: nat)
      requires Valid() && i <= validBits
      reads this, bits
    {
      GetIn(bits[..], i)
    }

    constructor (validBits: nat)
      ensures Valid() && Whole() && fresh(bits)
      ensures this.validBits == validBits && byteSize == validBits / 8 + 1 == bits.Length
      ensures forall i: nat | i <= validBits :: !Bit(i)
    {
      this.validBits := validBits;
      byteSize := validBits / 8 + 1;
      bits := new bv8[validBits / 8 + 1](_ => 0);
    }

    /** No bytes at all; the range check still lets offset 0 through. */
    constructor Empty()
      ensures validBits == 0 && byteSize == 0 && bits == null && !Valid() && InRange(0)
    {
      validBits, byteSize, bits := 0, 0, null;
    }

    predicate InRange(i: nat)
      reads this
    {
      i <= validBits
    }

    /** There is a byte for the bit at an offset. */
    predicate Backed(i: nat)
      reads this
    {
      bits != null && i / 8 < bits.Length
    }

    /** Sets one bit and no other; anything out of range is refused. */
    method SetBit(offset: nat, on: int) returns (ok: bool)
      requires Valid()
      modifies bits
      ensures Valid() && ok == (InRange(offset) && (on == 0 || on == 1))
      ensures forall i: nat | i <= validBits :: Bit(i) == if ok && i == offset then on == 1 else old(Bit(i))
    {
      if !(on == 0 || on == 1) || offset > validBits {
        return false;
      }
      ok := true;
      var byte, bit := offset / 8, offset % 8;
      ghost var was := bits[..];
      if BitOf(bits[byte], bit) != (on == 1) {
        bits[byte] := WithBit(bits[byte], bit, on == 1);
      }
      forall i: nat | i <= validBits
        ensures GetIn(bits[..], i) == if i == offset then on == 1 else GetIn(was, i)
      {
        if i / 8 == byte {
          WithBitIs(was[byte], bit, on == 1, i % 8);
          assert i == offset <==> i % 8 == bit;
        }
      }
    }

    method GetBit(offset: nat) returns (ok: bool, result: bool)
      requires Valid()
      ensures ok == InRange(offset)
      ensures ok ==> result == Bit(offset)
    {
      if offset > validBits {
        return false, false;
      }
      return true, BitOf(bits[offset / 8], offset % 8);
    }

    /** Combines this bitmap with another: byte by byte what the word loop computes, so bit by bit `op`. */
    method BitOps(kind: BitOpsType, other: BitMap?) returns (ok: bool)
      requires Valid() && (other != null ==> other.Valid())
      modifies bits
      ensures Valid() && ok == (other != null && validBits == other.validBits)
      ensures !ok ==> bits[..] == old(bits[..])
      ensures ok && Whole() && other.Whole() ==>
                forall i: nat | i <= validBits :: Bit(i) == OpOf(kind).bit(old(Bit(i)), old(other.Bit(i)))
    {
      if other == null || validBits != other.validBits {
        return false;
      }
      ok := true;
      var op := OpOf(kind);
      OpsAreBitwise();
      var size := if other.byteSize < byteSize then other.byteSize else byteSize;
      CombineBytes(op, bits, other.bits, size);
      forall i: nat | i <= validBits && i / 8 < size
        ensures GetIn(bits[..], i) == op.bit(old(GetIn(bits[..], i)), old(GetIn(other.bits[..], i)))
      {
        assert bits[i / 8] == op.byte(old(bits[i / 8]), old(other.bits[i / 8]));
      }
    }

    /** Copies into a bitmap that has no bytes yet. */
    method CopyTo(dest: BitMap) returns (ok: bool)
      requires Valid()
      modifies dest
      ensures ok == (old(dest.bits) == null)
      ensures ok ==>
                && fresh(dest.bits) && dest.validBits == validBits && dest.byteSize == byteSize == dest.bits.Length
                && dest.bits[..] == bits[..byteSize]
    {
      if dest.bits != null {
        return false;
      }
      var copy := new bv8[byteSize](
        i requires 0 <= i < byteSize reads this, bits => if bits != null && i < bits.Length then bits[i] else 0);
      dest.validBits, dest.byteSize, dest.bits := validBits, byteSize, copy;
      return true;
    }
  }

  /** Which bitmaps are safe: every offset that passes the range check has a byte exactly under this condition. */
  lemma SafeIff(bm: BitMap)
    ensures (forall i: nat | bm.InRange(i) :: bm.Backed(i)) <==> bm.bits != null && bm.validBits / 8 < bm.bits.Length
  {
    assert bm.InRange(bm.validBits);
    forall i: nat | bm.InRange(i) && bm.bits != null && bm.validBits / 8 < bm.bits.Length ensures bm.Backed(i) {
      assert i / 8 <= bm.validBits / 8;
    }
  }
}
