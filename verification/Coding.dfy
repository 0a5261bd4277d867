// Byte strings and the integer codings (util/coding.h, util/coding.cc).
module Coding {
  import opened DbFormat

  type Byte = b: int | 0 <= b < 256
  type Bytes = seq<Byte>

  const TWO_32 := 0x1_0000_0000
  const TWO_64 := 0x1_0000_0000_0000_0000

  type Word32 = w: nat | w < TWO_32
  type Word64 = w: nat | w < TWO_64

  lemma ThreeParts(a: Bytes, b: Bytes, c: Bytes)
    ensures var s := a + b + c;
            s[..|a|] == a && s[|a|..|a| + |b|] == b && s[|a| + |b|..] == c
  {
    var s := a + b + c;
    assert s[..|a|] == a;
    assert s[|a|..|a| + |b|] == b;
    assert s[|a| + |b|..] == c;
  }

  lemma PartOfMiddle(a: Bytes, b: Bytes, c: Bytes, k: nat)
    requires k + 4 <= |b|
    ensures (a + b + c)[|a| + k..|a| + k + 4] == b[k..k + 4]
  {
    ThreeParts(a, b, c);
    var s := a + b + c;
    assert s[|a|..|a| + |b|][k..k + 4] == s[|a| + k..|a| + k + 4];
  }

  lemma Associative(a: Bytes, b: Bytes, c: Bytes)
    ensures (a + b) + c == a + (b + c)
  {
  }

  // ---------- Division ----------

  lemma QuotientIs(v: nat, d: nat, q: nat, r: nat)
    requires d > 0 && v == d * q + r && r < d
    ensures v / d == q
  {
    var e: int := v / d - q;
    assert d * e == d * (v / d) - d * q == r - v % d;
    assert (e >= 1 ==> d * e >= d) && (e <= -1 ==> d * e <= 0 - d);
  }

  lemma Associates(a: nat, b: nat, c: nat)
    ensures a * (b * c) == (a * b) * c
  {
  }

  lemma Distributes(a: nat, b: nat, c: nat)
    ensures a * (b + c) == a * b + a * c
  {
  }

  lemma Composed(a: nat, b: nat, w: nat, r: nat, s: nat)
    requires s < a && r < b
    ensures a * (b * w + r) + s == (a * b) * w + (a * r + s)
    ensures a * r + s < a * b
  {
    Associates(a, b, w);
    Distributes(a, b * w, r);
    Distributes(a, b - 1 - r, r + 1);
    Distributes(a, r, 1);
  }

  lemma DividedTwice(v: nat, a: nat, b: nat)
    requires a > 0 && b > 0
    ensures a * b > 0 && v / a / b == v / (a * b)
  {
    var q: nat, s: nat := v / a, v % a;
    var w: nat, r: nat := q / b, q % b;
    Composed(a, b, w, r, s);
    assert q == b * w + r;
    QuotientIs(v, a * b, w, a * r + s);
  }

  // ---------- Fixed width, least significant byte first ----------

  function Pow256(width: nat): (p: nat)
    ensures p > 0
  {
    if width == 0 then 1 else 256 * Pow256(width - 1)
  }

  function Fixed(v: nat, width: nat): (s: Bytes)
    ensures |s| == width
  {
    if width == 0 then [] else [v % 256] + Fixed(v / 256, width - 1)
  }

  function DecodeFixed(s: Bytes): (v: nat)
    ensures v < Pow256(|s|)
  {
    if s == [] then 0 else s[0] + 256 * DecodeFixed(s[1..])
  }

  lemma {:induction false} FixedRoundTrip(v: nat, width: nat)
    requires v < Pow256(width)
    ensures DecodeFixed(Fixed(v, width)) == v
  {
    if width > 0 {
      FixedRoundTrip(v / 256, width - 1);
      assert Fixed(v, width)[1..] == Fixed(v / 256, width - 1);
    }
  }

  // Byte i holds the bits from 8 * i on.
  lemma {:induction false} FixedAt(v: nat, width: nat, i: nat)
    requires i < width
    ensures Fixed(v, width)[i] == v / Pow256(i) % 256
  {
    if i > 0 {
      FixedAt(v / 256, width - 1, i - 1);
      DividedTwice(v, 256, Pow256(i - 1));
    }
  }

  lemma LowByte(low: Byte, rest: nat)
    ensures (low + 256 * rest) % 256 == low && (low + 256 * rest) / 256 == rest
  {
  }

  // Different byte strings of one width stand for different numbers.
  lemma {:induction false} DecodeFixedRoundTrip(s: Bytes)
    ensures Fixed(DecodeFixed(s), |s|) == s
  {
    if s != [] {
      DecodeFixedRoundTrip(s[1..]);
      LowByte(s[0], DecodeFixed(s[1..]));
      assert s == [s[0]] + s[1..];
    }
  }

  function Fixed32(v: Word32): (s: Bytes)
    ensures |s| == 4
  {
    Fixed(v, 4)
  }

  function Fixed64(v: Word64): (s: Bytes)
    ensures |s| == 8
  {
    Fixed(v, 8)
  }

  lemma Pow256Of4()
    ensures Pow256(4) == TWO_32
  {
    assert Pow256(2) == 65536;
  }

  lemma Pow256Of8()
    ensures Pow256(8) == TWO_64
  {
    assert Pow256(2) == 65536;
    assert Pow256(4) == 65536 * Pow256(2);
    assert Pow256(6) == 65536 * Pow256(4);
  }

  lemma Fixed32RoundTrip(v: Word32)
    ensures DecodeFixed(Fixed32(v)) == v
  {
    Pow256Of4();
    FixedRoundTrip(v, 4);
  }

  lemma Fixed64RoundTrip(v: Word64)
    ensures DecodeFixed(Fixed64(v)) == v
  {
    Pow256Of8();
    FixedRoundTrip(v, 8);
  }

  function DecodeFixed32(s: Bytes): Word32
    requires |s| == 4
  {
    Pow256Of4();
    DecodeFixed(s)
  }

  function DecodeFixed64(s: Bytes): Word64
    requires |s| == 8
  {
    Pow256Of8();
    DecodeFixed(s)
  }

  // An array of 32-bit words, each cut off to its width.
  function Fixed32Array(words: seq<nat>): (s: Bytes)
    ensures |s| == 4 * |words|
  {
    if words == [] then [] else Fixed32Array(words[..|words| - 1]) + Fixed32(words[|words| - 1] % TWO_32)
  }

  lemma {:induction false} Fixed32ArrayAt(words: seq<nat>, j: nat)
    requires j < |words|
    ensures Fixed32Array(words)[4 * j..4 * j + 4] == Fixed32(words[j] % TWO_32)
  {
    if j < |words| - 1 {
      var front := words[..|words| - 1];
      Fixed32ArrayAt(front, j);
      assert Fixed32Array(words)[..4 * |front|] == Fixed32Array(front);
      assert Fixed32Array(words)[4 * j..4 * j + 4] == Fixed32Array(front)[4 * j..4 * j + 4];
    }
  }

  // ---------- Varints: seven bits a byte, the high bit set on all but the last ----------

  function Varint(v: nat): (s: Bytes)
    ensures |s| > 0
  {
    if v < 128 then [v] else [v % 128 + 128] + Varint(v / 128)
  }

  function Pow128(n: nat): (p: nat)
    ensures p > 0
  {
    if n == 0 then 1 else 128 * Pow128(n - 1)
  }

  // Reads at most the given number of bytes.
  function ParseVarint(s: Bytes, most: nat): (r: Option<(nat, Bytes)>)
    ensures r.Some? ==> |r.value.1| < |s|
  {
    if most == 0 || s == [] then None
    else if s[0] < 128 then Some((s[0], s[1..]))
    else
      var r := ParseVarint(s[1..], most - 1);
      if r.None? then None else Some((s[0] - 128 + 128 * r.value.0, r.value.1))
  }

  lemma {:induction false} ParseVarintRoundTrip(v: nat, rest: Bytes, most: nat)
    requires most > 0 && v < Pow128(most)
    ensures ParseVarint(Varint(v) + rest, most) == Some((v, rest))
  {
    var s := Varint(v) + rest;
    if v < 128 {
      assert s[1..] == rest;
    } else {
      ParseVarintRoundTrip(v / 128, rest, most - 1);
      assert s[1..] == Varint(v / 128) + rest;
    }
  }

  // No more than the given number of bytes is taken, and all but the last go on.
  lemma {:induction false} ParseTakesFew(s: Bytes, most: nat)
    requires ParseVarint(s, most).Some?
    ensures var taken := |s| - |ParseVarint(s, most).value.1|;
            && 1 <= taken <= most && s[taken..] == ParseVarint(s, most).value.1
            && s[taken - 1] < 128 && forall i :: 0 <= i < taken - 1 ==> s[i] >= 128
  {
    if s[0] >= 128 {
      ParseTakesFew(s[1..], most - 1);
      var taken := |s| - |ParseVarint(s, most).value.1|;
      assert s[1..][taken - 1..] == s[taken..];
      forall i | 0 < i < taken - 1 ensures s[i] >= 128 { assert s[1..][i - 1] == s[i]; }
    }
  }

  // Byte i holds the seven bits from 7 * i on, and says whether more bytes follow.
  lemma {:induction false} VarintAt(v: nat, i: nat)
    requires i < |Varint(v)|
    ensures Varint(v)[i] == v / Pow128(i) % 128 + if i + 1 < |Varint(v)| then 128 else 0
  {
    if i > 0 {
      VarintAt(v / 128, i - 1);
      DividedTwice(v, 128, Pow128(i - 1));
    }
  }

  // No shorter one would do.
  lemma {:induction false} VarintIsShort(v: nat)
    ensures v < Pow128(|Varint(v)|) && (|Varint(v)| > 1 ==> v >= Pow128(|Varint(v)| - 1))
  {
    if v >= 128 { VarintIsShort(v / 128); }
  }

  // EncodeVarint64; EncodeVarint32 writes out the same rounds one by one.
  method EncodeVarint(v: Word64) returns (s: Bytes)
    ensures s == Varint(v)
  {
    var left := v;
    s := [];
    while left >= 128
      invariant s + Varint(left) == Varint(v)
    {
      s := s + [left % 128 + 128];
      left := left / 128;
    }
    s := s + [left];
  }

  function GetVarint32(s: Bytes): (r: Option<(Word32, Bytes)>)
    ensures r.Some? ==> |r.value.1| < |s|
  {
    var r := ParseVarint(s, 5);
    if r.None? then None else Some((r.value.0 % TWO_32, r.value.1))
  }

  function GetVarint64(s: Bytes): (r: Option<(Word64, Bytes)>)
    ensures r.Some? ==> |r.value.1| < |s|
  {
    var r := ParseVarint(s, 10);
    if r.None? then None else Some((r.value.0 % TWO_64, r.value.1))
  }

  // The loop of GetVarint32Ptr (width 32, shifts up to 28) and GetVarint64Ptr (width 64,
  // shifts up to 63): bits shifted out at the top are lost.
  method GetVarintPtr(p: Bytes, most: nat, modulus: nat) returns (r: Option<(nat, Bytes)>)
    requires modulus > 0
    ensures var whole := ParseVarint(p, most);
            r == if whole.None? then None else Some((whole.value.0 % modulus, whole.value.1))
  {
    var result, weight, i := 0, 1, 0;
    ghost var whole := ParseVarint(p, most);
    while i < most && i < |p|
      invariant i <= most && i <= |p| && weight == Pow128(i)
      invariant var tail := ParseVarint(p[i..], most - i);
                && (whole.None? <==> tail.None?)
                && (whole.Some? ==> whole.value == (result + weight * tail.value.0, tail.value.1))
    {
      if p[i] < 128 {
        return Some(((result + weight * p[i]) % modulus, p[i + 1..]));
      }
      assert p[i..][1..] == p[i + 1..];
      ghost var tail := ParseVarint(p[i + 1..], most - i - 1);
      if tail.Some? { Regroup(weight, p[i] - 128, tail.value.0); }
      result := result + weight * (p[i] - 128);
      weight := 128 * weight;
      i := i + 1;
    }
    return None;
  }

  lemma Regroup(weight: nat, digit: nat, rest: nat)
    ensures weight * (digit + 128 * rest) == weight * digit + (128 * weight) * rest
  {
  }

  lemma Pow128Covers()
    ensures TWO_32 <= Pow128(5) && TWO_64 <= Pow128(10)
  {
    assert Pow128(2) == 16384;
    assert Pow128(4) == 16384 * Pow128(2);
    assert Pow128(6) == 16384 * Pow128(4);
    assert Pow128(8) == 16384 * Pow128(6);
    assert Pow128(10) == 16384 * Pow128(8);
  }

  lemma Varint32RoundTrip(v: Word32, rest: Bytes)
    ensures GetVarint32(Varint(v) + rest) == Some((v, rest))
  {
    Pow128Covers();
    ParseVarintRoundTrip(v, rest, 5);
  }

  lemma Varint64RoundTrip(v: Word64, rest: Bytes)
    ensures GetVarint64(Varint(v) + rest) == Some((v, rest))
  {
    Pow128Covers();
    ParseVarintRoundTrip(v, rest, 10);
  }

  // ---------- Length-prefixed slices ----------

  function LengthPrefixed(value: Bytes): Bytes {
    Varint(|value| % TWO_32) + value
  }

  function GetLengthPrefixedSlice(s: Bytes): (r: Option<(Bytes, Bytes)>)
    ensures r.Some? ==> |r.value.1| < |s|
  {
    var n := GetVarint32(s);
    if n.None? || |n.value.1| < n.value.0 then None
    else Some((n.value.1[..n.value.0], n.value.1[n.value.0..]))
  }

  lemma LengthPrefixedRoundTrip(value: Bytes, rest: Bytes)
    requires |value| < TWO_32
    ensures GetLengthPrefixedSlice(LengthPrefixed(value) + rest) == Some((value, rest))
  {
    Varint32RoundTrip(|value|, value + rest);
    assert LengthPrefixed(value) + rest == Varint(|value|) + (value + rest);
  }

  // ---------- Masked checksums (util/crc32c.h) ----------

  const MASK_DELTA := 0xa282ead8
  const TWO_15 := 0x8000
  const TWO_17 := 0x20000

  // Rotate right by 15 bits and add a constant.
  function Mask(crc: Word32): Word32 {
    (crc / TWO_15 + (crc % TWO_15) * TWO_17 + MASK_DELTA) % TWO_32
  }

  function Unmask(masked: Word32): Word32 {
    var rot := (masked - MASK_DELTA) % TWO_32;
    rot / TWO_17 + (rot % TWO_17) * TWO_15
  }

  lemma UnmaskUndoesMask(crc: Word32)
    ensures Unmask(Mask(crc)) == crc
  {
    var hi, lo := crc / TWO_15, crc % TWO_15;
    var rot := hi + lo * TWO_17;
    assert hi < TWO_17 && lo < TWO_15 && rot < TWO_32;
    assert (Mask(crc) - MASK_DELTA) % TWO_32 == rot;
  }

  lemma MaskUndoesUnmask(masked: Word32)
    ensures Unmask(masked) < TWO_32 && Mask(Unmask(masked)) == masked
  {
    var rot := (masked - MASK_DELTA) % TWO_32;
    var hi, lo := rot / TWO_17, rot % TWO_17;
    assert rot == hi * TWO_17 + lo && hi < TWO_15 && lo < TWO_17;
    var crc := hi + lo * TWO_15;
    assert crc / TWO_15 == lo && crc % TWO_15 == hi;
    assert (rot + MASK_DELTA) % TWO_32 == masked;
  }

  function Pow2(n: nat): (p: nat)
    ensures p > 0
  {
    if n == 0 then 1 else 2 * Pow2(n - 1)
  }

  function Bit(v: nat, i: nat): nat {
    v / Pow2(i) % 2
  }

  lemma {:induction false} Pow2Together(i: nat, j: nat)
    ensures Pow2(i) * Pow2(j) == Pow2(i + j)
  {
    if i > 0 { Pow2Together(i - 1, j); }
  }

  lemma QuotientOfSum(low: nat, p: nat, more: nat)
    requires p > 0
    ensures (low + p * more) / p == low / p + more
  {
    var q, r := low / p, low % p;
    assert low + p * more == p * (q + more) + r;
    QuotientIs(low + p * more, p, q + more, r);
  }

  // What stands above the lowest n bits does not change them.
  lemma LowBit(low: nat, high: nat, n: nat, i: nat)
    requires i < n
    ensures Bit(low + high * Pow2(n), i) == Bit(low, i)
  {
    var p, rest := Pow2(i), Pow2(n - i - 1);
    Pow2Together(i, n - i);
    var even := 2 * (high * rest);
    Regrouped(high, p, rest);
    QuotientOfSum(low, p, even);
    assert (low / p + even) % 2 == low / p % 2;
  }

  lemma Regrouped(high: nat, p: nat, rest: nat)
    ensures high * (p * (2 * rest)) == p * (2 * (high * rest))
  {
  }

  lemma HighBit(v: nat, n: nat, i: nat, high: nat)
    requires high == v / Pow2(n)
    ensures Bit(high, i) == Bit(v, n + i)
  {
    DividedTwice(v, Pow2(n), Pow2(i));
    Pow2Together(n, i);
  }

  lemma Pow2Values()
    ensures Pow2(15) == TWO_15 && Pow2(17) == TWO_17
  {
    assert Pow2(5) == 32;
    assert Pow2(10) == 32 * Pow2(5);
    assert Pow2(15) == 32 * Pow2(10);
  }

  lemma RotatedBack(crc: Word32)
    ensures (Mask(crc) - MASK_DELTA) % TWO_32 == crc / TWO_15 + crc % TWO_15 * TWO_17
    ensures crc == crc % TWO_15 + crc / TWO_15 * TWO_15
    ensures (crc / TWO_15 + crc % TWO_15 * TWO_17) / TWO_17 == crc % TWO_15
  {
  }

  // Masking is a rotation to the right by 15 bits before the constant is added.
  lemma MaskRotates(crc: Word32, i: nat)
    requires i < 32
    ensures Bit((Mask(crc) - MASK_DELTA) % TWO_32, i) == Bit(crc, (i + 15) % 32)
  {
    hide Pow2, Bit, Mask;
    Pow2Values();
    var hi, lo := crc / TWO_15, crc % TWO_15;
    var rot := hi + lo * TWO_17;
    RotatedBack(crc);
    if i < 17 {
      LowBit(hi, lo, 17, i);
      HighBit(crc, 15, i, hi);
    } else {
      HighBit(rot, 17, i - 17, lo);
      LowBit(lo, hi, 15, i - 17);
    }
  }
}
