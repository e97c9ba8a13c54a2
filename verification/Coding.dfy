/** RocksDB's integer and slice encodings, as far as Titan's formats use them. */
module Coding {
  import opened Wrappers

  type Byte = x: int | 0 <= x < 256

  type Bytes = seq<Byte>

  const U32: nat := 0x1_0000_0000
  const U64: nat := 0x1_0000_0000_0000_0000

  /** A decoded value and the bytes after it; None is a short or malformed input. */
  type Decoded<T> = Option<(T, Bytes)>

  lemma Assoc3(a: Bytes, b: Bytes, c: Bytes)
    ensures (a + b) + c == a + (b + c)
  {}

  lemma AppendNothing(s: Bytes)
    ensures s + [] == s
  {}

  lemma Assoc5(a: Bytes, b: Bytes, c: Bytes, d: Bytes, e: Bytes)
    ensures (a + (b + (c + d))) + e == a + (b + (c + (d + e)))
  {
    Assoc3(a, b + (c + d), e);
    Assoc3(b, c + d, e);
    Assoc3(c, d, e);
  }

  // ---------------------------------------------------------------- varints

  /** `EncodeVarint64`: seven bits a byte, lowest first, the high bit marking that more follow. */
  function PutVarint(v: nat): (r: Bytes)
    ensures r != []
  {
    if v < 128 then [v] else [v % 128 + 128] + PutVarint(v / 128)
  }

  /** How many bytes `GetVarint32Ptr` and `GetVarint64Ptr` look at. */
  const VARINT32_BYTES: nat := 5
  const VARINT64_BYTES: nat := 10

  /** At most `groups` bytes are looked at. */
  function GetVarint(s: Bytes, groups: nat): (r: Decoded<nat>)
    ensures r.Some? ==> |r.value.1| < |s|
  {
    if groups == 0 || s == [] then None
    else if s[0] < 128 then Some((s[0], s[1..]))
    else
      match GetVarint(s[1..], groups - 1)
      case None => None
      case Some((v, rest)) => Some((s[0] - 128 + 128 * v, rest))
  }

  /** Bits beyond the width fall off. */
  function Low(v: nat, width: nat): (r: nat)
    requires width > 0
    ensures r < width && r == v % width
  {
    if v < width then v else v % width
  }

  function GetVarint32(s: Bytes): (r: Decoded<nat>)
    ensures r.Some? ==> |r.value.1| < |s| && r.value.0 < U32
  {
    match GetVarint(s, VARINT32_BYTES) case None => None case Some((v, rest)) => Some((Low(v, U32), rest))
  }

  function GetVarint64(s: Bytes): (r: Decoded<nat>)
    ensures r.Some? ==> |r.value.1| < |s| && r.value.0 < U64
  {
    match GetVarint(s, VARINT64_BYTES) case None => None case Some((v, rest)) => Some((Low(v, U64), rest))
  }

  function Pow128(n: nat): nat { if n == 0 then 1 else 128 * Pow128(n - 1) }

  lemma {:induction false} VarintRoundTrip(v: nat, groups: nat, rest: Bytes)
    requires groups > 0 && v < Pow128(groups)
    ensures GetVarint(PutVarint(v) + rest, groups) == Some((v, rest))
    decreases groups
  {
    var s := PutVarint(v) + rest;
    if v < 128 {
      assert s[1..] == rest;
    } else {
      assert v / 128 < Pow128(groups - 1);
      VarintRoundTrip(v / 128, groups - 1, rest);
      assert s[1..] == PutVarint(v / 128) + rest;
    }
  }

  lemma PowersOf128()
    ensures U32 < Pow128(VARINT32_BYTES) && U64 < Pow128(VARINT64_BYTES)
  {
    assert Pow128(1) == 128;
    assert Pow128(2) == 0x4000;
    assert Pow128(3) == 0x20_0000;
    assert Pow128(4) == 0x1000_0000;
    assert Pow128(5) == 0x8_0000_0000;
    assert Pow128(6) == 0x400_0000_0000;
    assert Pow128(7) == 0x2_0000_0000_0000;
    assert Pow128(8) == 0x100_0000_0000_0000;
    assert Pow128(9) == 0x8000_0000_0000_0000;
  }

  lemma Varint32RoundTrip(v: nat, rest: Bytes)
    requires v < U32
    ensures GetVarint32(PutVarint(v) + rest) == Some((v, rest))
  {
    PowersOf128();
    VarintRoundTrip(v, VARINT32_BYTES, rest);
  }

  lemma Varint64RoundTrip(v: nat, rest: Bytes)
    requires v < U64
    ensures GetVarint64(PutVarint(v) + rest) == Some((v, rest))
  {
    PowersOf128();
    VarintRoundTrip(v, VARINT64_BYTES, rest);
  }

  // ---------------------------------------------------------------- fixed width

  /** `PutFixed32`: four bytes, lowest first. */
  function PutFixed32(v: nat): (r: Bytes)
    requires v < U32
    ensures |r| == 4
  {
    [v % 256, v / 256 % 256, v / 65536 % 256, v / 16777216]
  }

  function GetFixed32(s: Bytes): (r: Decoded<nat>)
    ensures r.Some? <==> |s| >= 4
    ensures r.Some? ==> r.value.1 == s[4..] && r.value.0 < U32
  {
    if |s| < 4 then None
    else
      var (a: int, b: int, c: int, d: int) := (s[0], s[1], s[2], s[3]);
      Some((a + 256 * b + 65536 * c + 16777216 * d, s[4..]))
  }

  lemma Fixed32RoundTrip(v: nat, rest: Bytes)
    requires v < U32
    ensures GetFixed32(PutFixed32(v) + rest) == Some((v, rest))
  {
    assert (PutFixed32(v) + rest)[4..] == rest;
    assert v / 65536 == v / 256 / 256;
    assert v / 16777216 == v / 65536 / 256;
  }

  // ---------------------------------------------------------------- slices

  /** `PutLengthPrefixedSlice`; the length is a 32-bit number. */
  function PutSlice(s: Bytes): Bytes
    requires |s| < U32
  {
    PutVarint(|s|) + s
  }

  function GetSlice(s: Bytes): (r: Decoded<Bytes>)
    ensures r.Some? ==> |r.value.1| < |s|
  {
    match GetVarint32(s)
    case None => None
    case Some((n, rest)) => if n > |rest| then None else Some((rest[..n], rest[n..]))
  }

  lemma SliceRoundTrip(s: Bytes, rest: Bytes)
    requires |s| < U32
    ensures GetSlice(PutSlice(s) + rest) == Some((s, rest))
  {
    Varint32RoundTrip(|s|, s + rest);
    assert PutSlice(s) + rest == PutVarint(|s|) + (s + rest);
    assert (s + rest)[..|s|] == s && (s + rest)[|s|..] == rest;
  }
}
