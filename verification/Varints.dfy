/**
 Base 128 varints, as the "Base 128 Varints" section of the Protocol Buffers
 Encoding specification defines them: the forward definition, the size
 computation from the bit length, the in-place writer and the two readers.

 Bit operations are written as arithmetic: `v & 0x7f | 0x80` is `v % 128 + 128`,
 `v >> 7` is `v / 128`, and `acc |= x << shift`, whose operands have no bit in
 common, is `acc + x * 2^shift` cut to the width of `acc`.
 */
module Varints {
  import opened Types

  const TWO32 := 0x1_0000_0000
  const TWO63 := 0x8000_0000_0000_0000
  const TWO64 := 0x1_0000_0000_0000_0000

  type Word = x: int | 0 <= x < TWO64

  datatype Error =
    | IntOverflow
    | UnexpectedEOF
    | InvalidLength
    | UnexpectedEndOfGroup
    | EndGroupForNonGroup
    | IllegalTag
    | WrongWireType
    | IllegalWireType
    | BadCid

  /** The conversion `uint64(x)` of an int32 extends its sign. */
  function ToWord(x: Int32): Word {
    if x < 0 then x + TWO64 else x
  }

  /** The low 32 bits of `x`, read as an int32. */
  function ToInt32(x: nat): Int32 {
    var low := x % TWO32;
    if low < 0x8000_0000 then low else low - TWO32
  }

  lemma Int32RoundTrip(x: Int32)
    ensures ToInt32(ToWord(x)) == x
  {
  }

  // ---------- writing ----------

  function VarintBytes(v: nat): (r: seq<Byte>)
    ensures |r| >= 1
  {
    if v < 128 then [v] else [v % 128 + 128] + VarintBytes(v / 128)
  }

  /** The number of bits needed to write `x`. */
  function BitLen(x: nat): nat {
    if x == 0 then 0 else 1 + BitLen(x / 2)
  }

  /** The size of a varint, from the bit length of `x | 1`. */
  function Sov(x: nat): nat {
    (BitLen(if x % 2 == 0 then x + 1 else x) + 6) / 7
  }

  lemma BitLenStep(x: nat)
    requires x > 0
    ensures BitLen(x) == 1 + BitLen(x / 2)
  {
  }

  lemma BitLenOfSevenMore(x: nat)
    requires x >= 128
    ensures BitLen(x) == 7 + BitLen(x / 128)
  {
    hide BitLen;
    var x1 := x / 2;
    var x2 := x1 / 2;
    var x3 := x2 / 2;
    var x4 := x3 / 2;
    var x5 := x4 / 2;
    var x6 := x5 / 2;
    BitLenStep(x);
    BitLenStep(x1);
    BitLenStep(x2);
    BitLenStep(x3);
    BitLenStep(x4);
    BitLenStep(x5);
    BitLenStep(x6);
    assert x6 / 2 == x / 128;
  }

  function Pow2(n: nat): nat {
    if n == 0 then 1 else 2 * Pow2(n - 1)
  }

  lemma {:induction false} BitLenBound(x: nat, n: nat)
    requires x < Pow2(n)
    ensures BitLen(x) <= n
    decreases n
  {
    if x > 0 {
      BitLenBound(x / 2, n - 1);
    }
  }

  lemma {:induction false} SovIsVarintLength(x: nat)
    ensures Sov(x) == |VarintBytes(x)|
    decreases x
  {
    hide Sov;
    if x < 128 {
      SovShort(x);
    } else {
      SovIsVarintLength(x / 128);
      SovOfSevenMore(x);
    }
  }

  lemma SovShort(x: nat)
    requires x < 128
    ensures Sov(x) == 1
  {
    hide BitLen, Pow2;
    var odd := if x % 2 == 0 then x + 1 else x;
    assert Pow2(7) == 128 by { Pow2Is(); }
    BitLenBound(odd, 7);
    BitLenStep(odd);
  }

  lemma Pow2Is()
    ensures Pow2(7) == 128
  {
    assert Pow2(3) == 8;
    assert Pow2(5) == 32;
  }

  lemma SovOfSevenMore(x: nat)
    requires x >= 128
    ensures Sov(x) == 1 + Sov(x / 128)
  {
    hide BitLen;
    var odd := if x % 2 == 0 then x + 1 else x;
    BitLenOfSevenMore(odd);
    assert odd / 128 == x / 128;
    LowBitKeepsBitLen(x / 128);
  }

  lemma LowBitKeepsBitLen(x: nat)
    requires x >= 1
    ensures BitLen(x) == BitLen(if x % 2 == 0 then x + 1 else x)
  {
    assert (x + 1) / 2 == x / 2 || x % 2 == 1;
  }

  /** `s` with the bytes `bs` written so that they end at `end`. */
  ghost function Patch(s: seq<Byte>, end: nat, bs: seq<Byte>): seq<Byte>
    requires |bs| <= end <= |s|
  {
    s[..end - |bs|] + bs + s[end..]
  }

  /** Writing from the right: first `b2`, then `b1` in front of it. */
  lemma PatchTwice(s: seq<Byte>, end: nat, b1: seq<Byte>, b2: seq<Byte>)
    requires |b1| + |b2| <= end <= |s|
    ensures Patch(Patch(s, end, b2), end - |b2|, b1) == Patch(s, end, b1 + b2)
  {
  }

  lemma PatchByte(s: seq<Byte>, end: nat, b: Byte)
    requires 1 <= end <= |s|
    ensures s[end - 1 := b] == Patch(s, end, [b])
  {
  }

  /** Writes `v` so that it ends at `offset`, lowest digit first, and returns where it begins. */
  method EncodeVarint(dAtA: array<Byte>, offset: nat, v: Word) returns (base: nat)
    requires |VarintBytes(v)| <= offset <= dAtA.Length
    modifies dAtA
    ensures base == offset - |VarintBytes(v)|
    ensures dAtA[..] == Patch(old(dAtA[..]), offset, VarintBytes(v))
  {
    hide VarintBytes, Sov, Partly, Patch;
    ghost var before: seq<Byte>, written: seq<Byte> := dAtA[..], [];
    SovIsVarintLength(v);
    base := offset - Sov(v);
    var at, rest := base, v;
    PartlyEnds(before, offset, VarintBytes(v));
    while rest >= 128
      invariant base <= at < offset && 0 <= rest < TWO64
      invariant |written| == at - base && at + |VarintBytes(rest)| == offset
      invariant written + VarintBytes(rest) == VarintBytes(v)
      invariant dAtA[..] == Partly(before, base, written)
      decreases rest
    {
      VarintBytesStep(rest);
      PutNext(before, base, written, rest % 128 + 128);
      MoveOver(written, rest % 128 + 128, VarintBytes(rest / 128));
      dAtA[at] := rest % 128 + 128;
      written := written + [rest % 128 + 128];
      rest := rest / 128;
      at := at + 1;
    }
    VarintBytesStep(rest);
    PutNext(before, base, written, rest);
    dAtA[at] := rest;
  }

  /** `s` with the bytes `written` from `base` on. */
  ghost function Partly(s: seq<Byte>, base: nat, written: seq<Byte>): seq<Byte>
    requires base + |written| <= |s|
  {
    s[..base] + written + s[base + |written|..]
  }

  lemma PartlyEnds(s: seq<Byte>, end: nat, bs: seq<Byte>)
    requires |bs| <= end <= |s|
    ensures Partly(s, end - |bs|, []) == s && Partly(s, end - |bs|, bs) == Patch(s, end, bs)
  {
  }

  lemma MoveOver(a: seq<Byte>, b: Byte, c: seq<Byte>)
    ensures a + ([b] + c) == (a + [b]) + c
  {
  }

  lemma VarintBytesStep(v: nat)
    ensures v < 128 ==> VarintBytes(v) == [v]
    ensures v >= 128 ==> VarintBytes(v) == [v % 128 + 128] + VarintBytes(v / 128)
  {
  }

  lemma PutNext(s: seq<Byte>, base: nat, written: seq<Byte>, b: Byte)
    requires base + |written| < |s|
    ensures |Partly(s, base, written)| == |s|
    ensures Partly(s, base, written)[base + |written| := b] == Partly(s, base, written + [b])
  {
  }

  // ---------- reading ----------

  /** The number a varint's bytes denote: base 128, lowest digit first. */
  function Raw(bs: seq<Byte>): nat {
    if bs == [] then 0 else bs[0] % 128 + 128 * Raw(bs[1..])
  }

  function Pow128(k: nat): nat {
    if k == 0 then 1 else 128 * Pow128(k - 1)
  }

  /** The length of the varint at the front of `d`, when `k` of its bytes have been read. */
  function VarintLen(d: seq<Byte>, k: nat): (r: Result<nat, Error>)
    ensures r.Ok? ==> 1 <= r.value <= |d|
  {
    if k >= 10 then Err(IntOverflow)
    else if d == [] then Err(UnexpectedEOF)
    else if d[0] < 128 then Ok(1)
    else
      match VarintLen(d[1..], k + 1)
      case Ok(n) => Ok(n + 1)
      case Err(e) => Err(e)
  }

  /** A 64-bit varint read at `i`, and the index behind it. */
  function ReadVarint(d: seq<Byte>, i: nat): (r: Result<(Word, nat), Error>)
    requires i <= |d|
    ensures r.Ok? ==> i < r.value.1 <= |d|
  {
    match VarintLen(d[i..], 0)
    case Ok(n) => Ok((Raw(d[i..i + n]) % TWO64, i + n))
    case Err(e) => Err(e)
  }

  ghost predicate AllMore(d: seq<Byte>, n: nat)
    requires n <= |d|
  {
    forall i :: 0 <= i < n ==> d[i] >= 128
  }

  /**
   A varint ends with its first byte below 128, which must be among the first ten; otherwise it is
   too long, or the input ends within it.
   */
  lemma {:induction false} VarintLenIs(d: seq<Byte>, k: nat)
    requires k <= 10
    ensures match VarintLen(d, k)
            case Ok(n) => k + n <= 10 && d[n - 1] < 128 && AllMore(d, n - 1)
            case Err(e) =>
              || (e == IntOverflow && |d| >= 10 - k && AllMore(d, 10 - k))
              || (e == UnexpectedEOF && |d| < 10 - k && AllMore(d, |d|))
    decreases |d|
  {
    if k < 10 && d != [] && d[0] >= 128 {
      VarintLenIs(d[1..], k + 1);
      assert forall i :: 1 <= i < |d| ==> d[1..][i - 1] == d[i];
    }
  }

  lemma {:induction false} RawPush(bs: seq<Byte>, b: Byte)
    ensures Raw(bs + [b]) == Raw(bs) + b % 128 * Pow128(|bs|)
    ensures Raw(bs) < Pow128(|bs|)
  {
    if bs == [] {
      assert [b][1..] == [];
    } else {
      RawPush(bs[1..], b);
      assert (bs + [b])[1..] == bs[1..] + [b];
      assert Pow128(|bs|) == 128 * Pow128(|bs| - 1);
      assert 128 * (b % 128 * Pow128(|bs| - 1)) == b % 128 * (128 * Pow128(|bs| - 1));
    }
  }

  lemma Pow128Values()
    ensures Pow128(0) == 1 && Pow128(1) == 0x80 && Pow128(2) == 0x4000 && Pow128(3) == 0x20_0000
    ensures Pow128(4) == 0x1000_0000 && Pow128(5) == 0x8_0000_0000 && Pow128(6) == 0x400_0000_0000
    ensures Pow128(7) == 0x2_0000_0000_0000 && Pow128(8) == 0x100_0000_0000_0000 && Pow128(9) == TWO63
  {
    assert Pow128(3) == 0x20_0000;
    assert Pow128(6) == 0x400_0000_0000;
  }

  lemma RemainderUnique(q1: nat, r1: nat, q2: nat, r2: nat, modulus: nat)
    requires r1 < modulus && r2 < modulus && q1 * modulus + r1 == q2 * modulus + r2
    ensures r1 == r2
  {
    assert (q1 - q2) * modulus == q1 * modulus - q2 * modulus;
    assert (q2 - q1) * modulus == q2 * modulus - q1 * modulus;
    if q1 > q2 {
      TimesAtLeast(q1 - q2, modulus);
    } else if q2 > q1 {
      TimesAtLeast(q2 - q1, modulus);
    }
  }

  lemma TimesAtLeast(n: nat, m: nat)
    requires n >= 1
    ensures n * m >= m
  {
  }

  lemma ModIsRemainder(x: nat, q: nat, r: nat, modulus: nat)
    requires r < modulus && x == q * modulus + r
    ensures x % modulus == r
  {
    RemainderUnique(x / modulus, x % modulus, q, r, modulus);
  }

  lemma AddMultiple(x: nat, q: nat, modulus: nat)
    requires modulus > 0
    ensures (x + q * modulus) % modulus == x % modulus
  {
    var q', r' := x / modulus, x % modulus;
    assert x + q * modulus == (q' + q) * modulus + r';
    ModIsRemainder(x + q * modulus, q' + q, r', modulus);
  }

  lemma DigitFits(raw: nat, digit: nat, power: nat, modulus: nat)
    requires raw < power && digit < 128 && 128 * power <= modulus
    ensures raw % modulus + digit * power % modulus == (raw + digit * power) % modulus
  {
    assert 0 <= digit * power <= 127 * power;
    SmallMod(raw, modulus);
    SmallMod(digit * power, modulus);
    SmallMod(raw + digit * power, modulus);
  }

  /** Adding one digit to an accumulator of 32 or 64 bits: the cut digit does not carry. */
  lemma AddDigit(bs: seq<Byte>, b: Byte, modulus: nat)
    requires |bs| <= 9 && (modulus == TWO32 || modulus == TWO64)
    ensures Raw(bs) % modulus + b % 128 * Pow128(|bs|) % modulus == Raw(bs + [b]) % modulus
  {
    hide Raw, Pow128;
    RawPush(bs, b);
    Pow128Values();
    var k, digit, power := |bs|, b % 128, Pow128(|bs|);
    if 128 * power <= modulus {
      DigitFits(Raw(bs), digit, power, modulus);
    } else if modulus == TWO64 {
      TopDigit(Raw(bs), digit, TWO63, 2);
    } else if k == 4 {
      TopDigit(Raw(bs), digit, 0x1000_0000, 16);
    } else {
      HighDigit(Raw(bs), digit, k);
    }
  }

  /** The digit that crosses the top of the word keeps its low part. */
  lemma TopDigit(raw: nat, digit: nat, power: nat, kept: nat)
    requires raw < power && kept > 0
    ensures raw % (kept * power) + digit * power % (kept * power) == (raw + digit * power) % (kept * power)
  {
    var modulus, low, high := kept * power, digit % kept, digit / kept;
    assert digit == low + high * kept;
    assert digit * power == low * power + high * modulus by {
      assert (low + high * kept) * power == low * power + high * kept * power;
      assert high * kept * power == high * (kept * power);
    }
    assert (low + 1) * power <= modulus;
    assert low * power + raw < modulus;
    AddMultiple(low * power, high, modulus);
    AddMultiple(raw + low * power, high, modulus);
    SmallMod(low * power, modulus);
    SmallMod(raw, modulus);
    SmallMod(raw + low * power, modulus);
  }

  lemma SmallMod(x: nat, modulus: nat)
    requires x < modulus
    ensures x % modulus == x
  {
  }

  /** A digit above bit 32 adds nothing to an accumulator of 32 bits. */
  lemma HighDigit(raw: nat, digit: nat, k: nat)
    requires digit < 128 && 5 <= k <= 9
    ensures raw % TWO32 + digit * Pow128(k) % TWO32 == (raw + digit * Pow128(k)) % TWO32
  {
    hide Pow128;
    Pow128Values();
    var q := if k == 5 then 0x8 else if k == 6 then 0x400 else if k == 7 then 0x2_0000
             else if k == 8 then 0x100_0000 else 0x8000_0000;
    assert Pow128(k) == q * TWO32;
    assert digit * (q * TWO32) == digit * q * TWO32;
    AddMultiple(raw, digit * q, TWO32);
    AddMultiple(0, digit * q, TWO32);
  }

  /** Reads a varint into an accumulator of 64 bits (`modulus` 2^64) or 32 bits (2^32). */
  method DecodeVarint(dAtA: seq<Byte>, start: nat, modulus: nat) returns (r: Result<(nat, nat), Error>)
    requires start <= |dAtA| && (modulus == TWO32 || modulus == TWO64)
    ensures match ReadVarint(dAtA, start)
            case Ok(v) => r == Ok((v.0 % modulus, v.1))
            case Err(e) => r == Err(e)
  {
    hide Raw, Pow128, VarintLen;
    var iNdEx, shift, acc, power := start, 0, 0, 1;
    NoDigits();
    assert dAtA[start..start] == [];
    while true
      invariant start <= iNdEx <= |dAtA| && shift == 7 * (iNdEx - start)
      invariant iNdEx - start <= 10 && power == Pow128(iNdEx - start)
      invariant acc == Raw(dAtA[start..iNdEx]) % modulus
      invariant match VarintLen(dAtA[iNdEx..], iNdEx - start)
                case Ok(n) => VarintLen(dAtA[start..], 0) == Ok(iNdEx - start + n)
                case Err(e) => VarintLen(dAtA[start..], 0) == Err(e)
      decreases |dAtA| - iNdEx
    {
      VarintLenStep(dAtA, iNdEx, iNdEx - start);
      if shift >= 64 {
        return Err(IntOverflow);
      }
      if iNdEx >= |dAtA| {
        return Err(UnexpectedEOF);
      }
      var b := dAtA[iNdEx];
      AddDigit(dAtA[start..iNdEx], b, modulus);
      PowStep(iNdEx - start);
      assert dAtA[start..iNdEx + 1] == dAtA[start..iNdEx] + [b];
      iNdEx := iNdEx + 1;
      acc := acc + b % 128 * power % modulus;
      if b < 128 {
        break;
      }
      shift, power := shift + 7, 128 * power;
    }
    ModOfMod(Raw(dAtA[start..iNdEx]));
    r := Ok((acc, iNdEx));
  }

  lemma NoDigits()
    ensures Raw([]) == 0 && Pow128(0) == 1
  {
  }

  lemma PowStep(k: nat)
    ensures Pow128(k + 1) == 128 * Pow128(k)
  {
  }

  lemma VarintLenStep(d: seq<Byte>, i: nat, k: nat)
    requires i <= |d|
    ensures k >= 10 ==> VarintLen(d[i..], k) == Err(IntOverflow)
    ensures k < 10 && i == |d| ==> VarintLen(d[i..], k) == Err(UnexpectedEOF)
    ensures k < 10 && i < |d| && d[i] < 128 ==> VarintLen(d[i..], k) == Ok(1)
    ensures k < 10 && i < |d| && d[i] >= 128 ==>
              VarintLen(d[i..], k) == match VarintLen(d[i + 1..], k + 1) case Ok(n) => Ok(n + 1) case Err(e) => Err(e)
  {
    if i < |d| {
      assert d[i..][1..] == d[i + 1..];
    }
  }

  lemma ModOfMod(x: nat)
    ensures x % TWO64 % TWO32 == x % TWO32 && x % TWO64 % TWO64 == x % TWO64
  {
    var q, low := x / TWO64, x % TWO64;
    assert x == low + q * TWO64;
    assert q * TWO64 == (q * TWO32) * TWO32;
    AddMultiple(low, q * TWO32, TWO32);
    SmallMod(low, TWO64);
  }

  /** A varint reads back as written, whatever follows it. */
  lemma {:induction false} VarintReadsBack(v: Word, k: nat, rest: seq<Byte>)
    requires k <= 9 && v * Pow128(k) < TWO64
    ensures VarintLen(VarintBytes(v) + rest, k) == Ok(|VarintBytes(v)|)
    ensures Raw(VarintBytes(v)) == v
    decreases v
  {
    Pow128Values();
    if v >= 128 {
      var tail := VarintBytes(v / 128);
      if k == 9 {
        assert false;
      } else {
        assert Pow128(k + 1) == 128 * Pow128(k);
        Scale(v, Pow128(k));
        VarintReadsBack(v / 128, k + 1, rest);
        assert (VarintBytes(v) + rest)[1..] == tail + rest;
        assert VarintBytes(v)[1..] == tail;
      }
    } else {
      assert [v][1..] == [];
    }
  }

  lemma Scale(v: nat, p: nat)
    ensures v / 128 * (128 * p) <= v * p
  {
    assert v / 128 * 128 <= v;
    assert v / 128 * 128 * p <= v * p;
  }

  lemma VarintRoundTrip(v: Word, rest: seq<Byte>)
    ensures ReadVarint(VarintBytes(v) + rest, 0) == Ok((v, |VarintBytes(v)|))
  {
    VarintReadsBack(v, 0, rest);
    var d := VarintBytes(v) + rest;
    assert d[0..] == d;
    assert d[0..|VarintBytes(v)|] == VarintBytes(v);
  }

  lemma {:induction false} VarintShort(v: nat, k: nat)
    requires v < Pow128(k)
    ensures |VarintBytes(v)| <= if k == 0 then 1 else k
    decreases k
  {
    hide VarintBytes;
    VarintBytesStep(v);
    if k > 0 && v >= 128 {
      assert v / 128 < Pow128(k - 1) by { PowStep(k - 1); }
      VarintShort(v / 128, k - 1);
      assert k > 1 by { OneDigit(v, k); }
    }
  }

  lemma OneDigit(v: nat, k: nat)
    requires 128 <= v < Pow128(k)
    ensures k > 1
  {
    assert Pow128(0) == 1 && Pow128(1) == 128;
  }

  lemma {:induction false} VarintLong(v: nat, k: nat)
    requires v >= Pow128(k)
    ensures |VarintBytes(v)| > k
    decreases k
  {
    hide VarintBytes;
    VarintBytesStep(v);
    if k > 0 {
      assert v / 128 >= Pow128(k - 1) by { PowStep(k - 1); }
      assert v >= 128 by { OnePower(k); }
      VarintLong(v / 128, k - 1);
    }
  }

  lemma {:induction false} OnePower(k: nat)
    requires k > 0
    ensures Pow128(k) >= 128
  {
    if k == 1 {
      assert Pow128(0) == 1;
    } else {
      OnePower(k - 1);
    }
  }

  /** A negative number is sign-extended to 64 bits, so it takes ten bytes; others take at most five. */
  lemma SignedLength(x: Int32)
    ensures x < 0 ==> |VarintBytes(ToWord(x))| == 10
    ensures x >= 0 ==> |VarintBytes(ToWord(x))| <= 5
  {
    hide VarintBytes, Pow128;
    Pow128Values();
    PowStep(9);
    if x < 0 {
      VarintLong(ToWord(x), 9);
      VarintShort(ToWord(x), 10);
    } else {
      VarintShort(ToWord(x), 5);
    }
  }
}
