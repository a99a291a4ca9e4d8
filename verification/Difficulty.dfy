/** Difficulty targets: the 32-bit compact format, block work, and the retarget rules. */
module Difficulty {

  type Uint32 = x: int | 0 <= x < 0x1_0000_0000

  // ----- byte shifts

  /** Shift left by k bytes. */
  function Shl(n: int, k: nat): int {
    if k == 0 then n else 256 * Shl(n, k - 1)
  }

  /** Arithmetic shift right by k bytes; rounds towards minus infinity. */
  function Shr(n: int, k: nat): int
    decreases k
  {
    if k == 0 then n else Shr(n / 256, k - 1)
  }

  function ByteLen(n: nat): nat {
    if n == 0 then 0 else 1 + ByteLen(n / 256)
  }

  lemma {:induction false} ShlMono(a: int, b: int, k: nat)
    requires a <= b
    ensures Shl(a, k) <= Shl(b, k)
    ensures a < b ==> Shl(a, k) < Shl(b, k)
  {
    if k > 0 { ShlMono(a, b, k - 1); }
  }

  lemma {:induction false} ShlInner(a: int, k: nat)
    ensures Shl(256 * a, k) == Shl(a, k + 1)
  {
    if k > 0 { ShlInner(a, k - 1); }
  }

  lemma {:induction false} ShlUp(a: nat, k: nat, j: nat)
    requires k <= j
    ensures 0 <= Shl(a, k) <= Shl(a, j)
    decreases j
  {
    if k < j { ShlUp(a, k, j - 1); } else if k > 0 { ShlUp(a, k - 1, j - 1); }
  }

  lemma {:induction false} ShrBounds(n: int, k: nat)
    ensures Shl(Shr(n, k), k) <= n < Shl(Shr(n, k) + 1, k)
    decreases k
  {
    if k > 0 { ShrBounds(n / 256, k - 1); }
  }

  // ----- the format

  function CompactToBig(compact: Uint32): int {
    var mantissa := compact % 0x80_0000;
    var isNegative := compact / 0x80_0000 % 2 == 1;
    var exponent := compact / 0x100_0000;
    var bn := if exponent <= 3 then Shr(mantissa, 3 - exponent) else Shl(mantissa, exponent - 3);
    if isNegative then -bn else bn
  }

  /** The value of a compact number: its 23-bit mantissa times 256 to the power of its exponent
      less three, rounded down, with its sign. */
  lemma CompactValue(mantissa: nat, exponent: nat, negative: bool)
    requires mantissa < 0x80_0000 && exponent < 256
    ensures var bits := exponent * 0x100_0000 + (if negative then 0x80_0000 else 0) + mantissa;
            && 0 <= bits < 0x1_0000_0000
            && var v := if negative then -CompactToBig(bits) else CompactToBig(bits);
            v * 0x100_0000 <= mantissa * Pow(256, exponent) < (v + 1) * 0x100_0000
  {
    var bits := exponent * 0x100_0000 + (if negative then 0x80_0000 else 0) + mantissa;
    Fields(mantissa, exponent, negative);
    Magnitude(mantissa, exponent);
    hide Shl, Shr, Pow;
  }

  lemma Fields(mantissa: nat, exponent: nat, negative: bool)
    requires mantissa < 0x80_0000 && exponent < 256
    ensures var bits := exponent * 0x100_0000 + (if negative then 0x80_0000 else 0) + mantissa;
            && bits % 0x80_0000 == mantissa && bits / 0x100_0000 == exponent
            && (bits / 0x80_0000 % 2 == 1 <==> negative)
  {
  }

  lemma Magnitude(mantissa: nat, exponent: nat)
    requires mantissa < 0x80_0000
    ensures var v := if exponent <= 3 then Shr(mantissa, 3 - exponent) else Shl(mantissa, exponent - 3);
            v * 0x100_0000 <= mantissa * Pow(256, exponent) < (v + 1) * 0x100_0000
  {
    if exponent > 3 {
      ShlIsPower(mantissa, exponent - 3);
      PowSplit(exponent - 3);
      var p := Pow(256, exponent - 3);
      hide Shl, Pow;
      assert mantissa * (p * 0x100_0000) == (mantissa * p) * 0x100_0000;
    } else {
      SmallPowers();
      hide Pow;
      if exponent == 3 {
      } else if exponent == 2 {
        assert Shr(mantissa, 1) == mantissa / 256;
      } else if exponent == 1 {
        assert Shr(mantissa, 2) == mantissa / 256 / 256;
      } else {
        assert Shr(mantissa, 3) == mantissa / 256 / 256 / 256;
      }
    }
  }

  lemma SmallPowers()
    ensures Pow(256, 0) == 1 && Pow(256, 1) == 256 && Pow(256, 2) == 0x1_0000 && Pow(256, 3) == 0x100_0000
  {
    assert Pow(256, 2) == Pow(256, 1) * 256;
  }

  lemma {:induction false} ShlIsPower(n: int, k: nat)
    ensures Shl(n, k) == n * Pow(256, k)
  {
    if k > 0 { ShlIsPower(n, k - 1); }
  }

  lemma PowSplit(k: nat)
    ensures Pow(256, k + 3) == Pow(256, k) * 0x100_0000
  {
    assert Pow(256, k + 3) == Pow(256, k + 2) * 256 && Pow(256, k + 2) == Pow(256, k + 1) * 256;
  }

  function Abs(n: int): nat { if n < 0 then -n else n }

  /** The leading three bytes of |n|.  For negative n the arithmetic shift rounds away from
      zero. */
  function LeadingBytes(n: int): nat {
    var size := ByteLen(Abs(n));
    Abs(if size <= 3 then Shl(n, 3 - size) else Shr(n, size - 3))
  }

  /** The exponent's low byte above the mantissa.  A negative number can round up to a
      mantissa of exactly 2^24, whose top bit is then or-ed into the exponent. */
  function Pack(exponent: nat, mantissa: nat): nat {
    var high := exponent % 256 * 0x100_0000;
    if mantissa >= 0x100_0000 && exponent % 2 == 1 then high + mantissa - 0x100_0000 else high + mantissa
  }

  function BigToCompact(n: int): int {
    if n == 0 then 0 else
      var lead, size := LeadingBytes(n), ByteLen(Abs(n));
      var signBit := lead / 0x80_0000 % 2 == 1;
      var mantissa := if signBit then lead / 256 else lead;
      var exponent := if signBit then size + 1 else size;
      var c := Pack(exponent, mantissa);
      if n < 0 then c + 0x80_0000 else c
  }

  /** The smallest number whose mantissa no longer fits in front of exponent 255. */
  function CompactLimit(): int { Shl(0x80_0000, 252) }

  // ----- the reference: clear low bytes until at most 23 bits are left

  function Truncate(n: nat): nat {
    if n < 0x80_0000 then n else 256 * Truncate(n / 256)
  }

  /** The weight of the lowest bit that survives truncation. */
  function Unit(n: nat): nat {
    if n < 0x80_0000 then 1 else 256 * Unit(n / 256)
  }

  lemma {:induction false} TruncateBounds(n: nat)
    ensures Truncate(n) <= n < Truncate(n) + Unit(n)
    ensures n >= 0x8000 ==> Truncate(n) >= 0x8000 * (if n < 0x80_0000 then 1 else Unit(n))
  {
    if n >= 0x80_0000 { TruncateBounds(n / 256); }
  }

  lemma {:induction false} TruncateIsGreatest(m: nat, k: nat, n: nat)
    requires m < 0x80_0000 && Shl(m, k) <= n
    ensures Shl(m, k) <= Truncate(n)
    decreases n
  {
    if n >= 0x80_0000 {
      if k == 0 {
        TruncateBounds(n / 256);
        assert Truncate(n / 256) >= 0x8000 by { UnitPositive(n / 256); }
      } else {
        TruncateIsGreatest(m, k - 1, n / 256);
      }
    }
  }

  lemma {:induction false} UnitPositive(n: nat)
    ensures Unit(n) > 0
  {
    if n >= 0x80_0000 { UnitPositive(n / 256); }
  }

  // ----- encoding computes the truncation

  lemma SmallByteLen(n: nat)
    ensures 0 < n < 0x100 ==> ByteLen(n) == 1
    ensures 0x100 <= n < 0x1_0000 ==> ByteLen(n) == 2
    ensures 0x1_0000 <= n < 0x100_0000 ==> ByteLen(n) == 3
    ensures n >= 0x100_0000 ==> ByteLen(n) >= 4
  {
    var a := n / 256;
    var b := a / 256;
    var c := b / 256;
    assert n > 0 ==> ByteLen(n) == 1 + ByteLen(a);
    assert a > 0 ==> ByteLen(a) == 1 + ByteLen(b);
    assert b > 0 ==> ByteLen(b) == 1 + ByteLen(c);
  }

  /** The truncation in terms of byte length and leading bytes. */
  lemma {:induction false} TruncateFromLength(n: nat)
    requires n >= 0x80_0000
    ensures ByteLen(n) >= 3
    ensures var lead := Shr(n, ByteLen(n) - 3);
            && 0x1_0000 <= lead < 0x100_0000
            && Truncate(n) == if lead >= 0x80_0000 then Shl(lead / 256, ByteLen(n) - 2) else Shl(lead, ByteLen(n) - 3)
  {
    SmallByteLen(n);
    if n < 0x100_0000 {
      assert Shl(n / 256, 1) == 256 * Shl(n / 256, 0) == 256 * (n / 256);
    } else if n / 256 < 0x80_0000 {
      SmallByteLen(n / 256);
      assert Shr(n, 1) == Shr(n / 256, 0) && Shl(n / 256, 1) == 256 * Shl(n / 256, 0);
    } else {
      TruncateFromLength(n / 256);
      assert Shr(n, ByteLen(n) - 3) == Shr(n / 256, ByteLen(n / 256) - 3);
    }
  }

  /** Decoding a packed exponent and mantissa. */
  lemma Unpack(exponent: nat, mantissa: nat)
    requires exponent < 256 && mantissa < 0x80_0000
    ensures Pack(exponent, mantissa) == exponent * 0x100_0000 + mantissa
    ensures CompactToBig(exponent * 0x100_0000 + mantissa)
         == if exponent <= 3 then Shr(mantissa, 3 - exponent) else Shl(mantissa, exponent - 3)
  {
    var c := exponent * 0x100_0000 + mantissa;
    assert c / 0x100_0000 == exponent && c % 0x80_0000 == mantissa && c / 0x80_0000 % 2 == 0;
  }

  lemma SmallShifts(n: int)
    ensures Shl(n, 0) == n && Shl(n, 1) == 256 * n && Shl(n, 2) == 0x1_0000 * n
    ensures Shr(n, 0) == n && Shr(n, 1) == n / 256 && Shr(n, 2) == n / 256 / 256
  {
    assert Shl(n, 2) == 256 * Shl(n, 1);
    assert Shr(n, 1) == Shr(n / 256, 0) && Shr(n, 2) == Shr(n / 256, 1) == Shr(n / 256 / 256, 0);
  }

  lemma SmallRoundTrip(n: nat)
    requires 0 < n < 0x80_0000
    ensures 0 <= BigToCompact(n) < 0x1_0000_0000 && CompactToBig(BigToCompact(n)) == n
  {
    hide ByteLen, Shr, Shl, CompactToBig, Pack;
    SmallByteLen(n);
    SmallShifts(n);
    if n < 0x80 {
      Unpack(1, n * 0x1_0000);
      SmallShifts(n * 0x1_0000);
    } else if n < 0x100 {
      Unpack(2, n * 256);
      SmallShifts(n * 256);
    } else if n < 0x8000 {
      Unpack(2, n * 256);
      SmallShifts(n * 256);
    } else {
      Unpack(3, n);
    }
  }

  lemma LengthWithinLimit(n: nat)
    requires 0x80_0000 <= n < CompactLimit()
    ensures 3 <= ByteLen(n) <= 255
    ensures ByteLen(n) == 255 ==> Shr(n, 252) < 0x80_0000
  {
    TruncateFromLength(n);
    var k := ByteLen(n) - 3;
    ShrBounds(n, k);
    if k > 252 {
      ShlMono(0x1_0000, Shr(n, k), k);
      ShlUp(0x1_0000, 253, k);
      ShlInner(0x1_0000, 252);
      ShlMono(0x80_0000, 0x100_0000, 252);
    } else if k == 252 && Shr(n, k) >= 0x80_0000 {
      ShlMono(0x80_0000, Shr(n, k), 252);
    }
  }

  lemma LargeIsTruncated(n: nat)
    requires 0x80_0000 <= n < CompactLimit()
    ensures 0 <= BigToCompact(n) < 0x1_0000_0000 && CompactToBig(BigToCompact(n)) == Truncate(n)
  {
    hide ByteLen, Shr, Shl, CompactToBig, BigToCompact, Truncate;
    SmallShifts(n);
    TruncateFromLength(n);
    LengthWithinLimit(n);
    var size := ByteLen(n);
    var lead := Shr(n, size - 3);
    if lead >= 0x80_0000 {
      Packed(n, lead, true);
      Unpack(size + 1, lead / 256);
    } else {
      Packed(n, lead, false);
      Unpack(size, lead);
    }
  }

  lemma Packed(n: nat, lead: nat, signBit: bool)
    requires n > 0 && ByteLen(n) >= 3 && lead == Shr(n, ByteLen(n) - 3) && lead < 0x100_0000
    requires signBit == (lead >= 0x80_0000)
    ensures BigToCompact(n)
         == if signBit then Pack(ByteLen(n) + 1, lead / 256)
            else Pack(ByteLen(n), lead)
  {
    hide ByteLen, Shr, Shl, Pack;
    assert Shl(n, 0) == n && Shr(n, 0) == n by { SmallShifts(n); }
    assert LeadingBytes(n) == lead;
    assert (lead / 0x80_0000 % 2 == 1) == signBit;
  }

  lemma DecodesToTruncation(n: nat)
    requires n < CompactLimit()
    ensures 0 <= BigToCompact(n) < 0x1_0000_0000
    ensures CompactToBig(BigToCompact(n)) == Truncate(n)
  {
    if n == 0 {
      Unpack(0, 0);
      assert Shr(0, 3) == Shr(0, 2) == Shr(0, 1) == 0;
    } else if n < 0x80_0000 {
      SmallRoundTrip(n);
    } else {
      LargeIsTruncated(n);
    }
  }

  // ----- the Galois connection

  lemma ShrSmall(m: nat, k: nat)
    requires k <= 3
    ensures 0 <= Shr(m, k) <= m
  {
    SmallShifts(m);
    assert Shr(m, 3) == Shr(m / 256, 2) == Shr(m / 256 / 256, 1);
  }

  /** Every value the format can express is at most the truncation of any bound above it. */
  lemma RepresentableBelow(c: Uint32, n: nat)
    requires CompactToBig(c) <= n
    ensures CompactToBig(c) <= Truncate(n)
  {
    var mantissa, exponent := c % 0x80_0000, c / 0x100_0000;
    if exponent <= 3 {
      ShrSmall(mantissa, 3 - exponent);
      if CompactToBig(c) >= 0 { TruncateIsGreatest(CompactToBig(c), 0, n); }
    } else {
      ShlUp(mantissa, 0, exponent - 3);
      if CompactToBig(c) >= 0 && c / 0x80_0000 % 2 == 0 { TruncateIsGreatest(mantissa, exponent - 3, n); }
    }
  }

  /** BigToCompact followed by CompactToBig is the greatest representable value not above
      n: compact targets and naturals form a Galois connection. */
  lemma CompactIsGreatestBelow(n: nat)
    requires n < CompactLimit()
    ensures 0 <= BigToCompact(n) < 0x1_0000_0000
    ensures var d := CompactToBig(BigToCompact(n));
            && 0 <= d <= n
            && (forall c: Uint32 :: CompactToBig(c) <= n <==> CompactToBig(c) <= d)
  {
    DecodesToTruncation(n);
    TruncateBounds(n);
    forall c: Uint32 | CompactToBig(c) <= n
      ensures CompactToBig(c) <= Truncate(n)
    {
      RepresentableBelow(c, n);
    }
  }

  /** Rounding a target never reorders two targets. */
  lemma RoundingIsMonotone(m: nat, n: nat)
    requires m <= n < CompactLimit()
    ensures 0 <= BigToCompact(m) < 0x1_0000_0000 && 0 <= BigToCompact(n) < 0x1_0000_0000
    ensures CompactToBig(BigToCompact(m)) <= CompactToBig(BigToCompact(n))
  {
    CompactIsGreatestBelow(m);
    CompactIsGreatestBelow(n);
    assert CompactToBig(BigToCompact(m)) <= n;
  }

  /** A representable value survives the round trip unchanged. */
  lemma RepresentableRoundTrip(c: Uint32)
    requires CompactToBig(c) >= 0
    ensures 0 <= BigToCompact(CompactToBig(c)) < 0x1_0000_0000
    ensures CompactToBig(BigToCompact(CompactToBig(c))) == CompactToBig(c)
  {
    DecodedBelowLimit(c);
    CompactIsGreatestBelow(CompactToBig(c));
    assert CompactToBig(c) <= CompactToBig(BigToCompact(CompactToBig(c)));
  }

  /** The promise that at least fifteen significant bits survive. */
  ghost predicate KeepsPrecision(n: nat) {
    && 0 <= BigToCompact(n) < 0x1_0000_0000
    && CompactToBig(BigToCompact(n)) <= n
    && (n - CompactToBig(BigToCompact(n))) * 0x8000 < n
  }

  /** Precision is kept exactly below CompactLimit: at and above it the exponent no longer
      fits in its byte and wraps round. */
  lemma PrecisionExactlyBelowLimit(n: nat)
    requires n > 0
    ensures KeepsPrecision(n) <==> n < CompactLimit()
  {
    if n < CompactLimit() {
      DecodesToTruncation(n);
      TruncateBounds(n);
    } else if n < 2 * CompactLimit() {
      WrapsToZero(n);
    } else if 0 <= BigToCompact(n) < 0x1_0000_0000 {
      DecodedBelowLimit(BigToCompact(n));
    }
  }

  lemma DecodedBelowLimit(c: Uint32)
    ensures CompactToBig(c) < CompactLimit()
  {
    var mantissa, exponent := c % 0x80_0000, c / 0x100_0000;
    ShlUp(0x80_0000, 0, 252);
    if exponent <= 3 {
      ShrSmall(mantissa, 3 - exponent);
    } else {
      ShlUp(mantissa, exponent - 3, 252);
      ShlMono(mantissa, 0x80_0000, 252);
    }
  }

  /** Just above the limit the encoded exponent byte is zero and the decoded value is zero. */
  lemma WrapsToZero(n: nat)
    requires CompactLimit() <= n < 2 * CompactLimit()
    ensures 0 <= BigToCompact(n) < 0x1_0000_0000 && CompactToBig(BigToCompact(n)) == 0
  {
    TopLength(n);
    TruncateFromLength(n);
    var lead := Shr(n, 252);
    Packed(n, lead, true);
    var low := lead / 256;
    Unpack(0, low);
    assert Shr(low, 3) == Shr(low / 256, 2) == Shr(low / 256 / 256, 1) == low / 256 / 256 / 256;
  }

  lemma {:induction false} ShlDouble(a: int, k: nat)
    ensures Shl(2 * a, k) == 2 * Shl(a, k)
  {
    if k > 0 { ShlDouble(a, k - 1); }
  }

  lemma TopLength(n: nat)
    requires CompactLimit() <= n < 2 * CompactLimit()
    ensures n >= 0x80_0000 && ByteLen(n) == 255 && Shr(n, 252) >= 0x80_0000
  {
    ShlUp(0x80_0000, 0, 252);
    TruncateFromLength(n);
    var k := ByteLen(n) - 3;
    var lead := Shr(n, k);
    ShrBounds(n, k);
    if k < 252 {
      ShlMono(lead + 1, 0x100_0000, k);
      ShlUp(0x100_0000, k, 251);
      ShlInner(0x1_0000, 251);
      ShlMono(0x1_0000, 0x80_0000, 252);
    } else if k > 252 {
      ShlMono(0x1_0000, lead, k);
      ShlUp(0x1_0000, 253, k);
      ShlInner(0x1_0000, 252);
      ShlDouble(0x80_0000, 252);
    } else if lead < 0x80_0000 {
      ShlMono(lead + 1, 0x80_0000, 252);
    }
  }

  // ----- products and quotients

  lemma MulLe(a: nat, b: nat, c: nat, d: nat)
    requires a <= b && c <= d
    ensures 0 <= a * c <= b * d
  {
    assert a * c <= b * c;
    assert b * c <= b * d;
  }

  lemma QuotientBounds(n: int, q: nat, k: int)
    requires q > 0 && k == n / q
    ensures k * q <= n < k * q + q
  {
  }

  lemma CompareProducts(k: int, j: int, q: nat)
    requires q > 0 && k * q < j * q + q
    ensures k <= j
  {
    assert (k - j) * q == k * q - j * q;
    if k > j { MulLe(1, k - j, q, q); }
  }

  lemma QuotientMono(a: int, b: int, q: nat)
    requires q > 0 && a <= b
    ensures a / q <= b / q
  {
    var k, j := a / q, b / q;
    QuotientBounds(a, q, k);
    QuotientBounds(b, q, j);
    CompareProducts(k, j, q);
  }

  lemma QuotientOf(n: int, q: nat, k: int)
    requires q > 0 && k * q <= n < k * q + q
    ensures n / q == k
  {
    var j := n / q;
    QuotientBounds(n, q, j);
    CompareProducts(k, j, q);
    CompareProducts(j, k, q);
  }

  // ----- block work

  /** 2^256 divided by one more than the target, and nothing for a target that is not
      positive. */
  function CalcWork(bits: Uint32): nat {
    var target := CompactToBig(bits);
    if target <= 0 then 0 else WorkFor(target)
  }

  function WorkFor(target: nat): nat {
    QuotientOf(0, target + 1, 0);
    ShlUp(1, 0, 32);
    QuotientMono(0, Shl(1, 32), target + 1);
    Shl(1, 32) / (target + 1)
  }

  const TWO_256 := 0x1_0000000000000000_0000000000000000_0000000000000000_0000000000000000

  lemma OneLsh256()
    ensures Shl(1, 32) == TWO_256
  {
    assert Shl(1, 8) == 0x1_0000000000000000;
    assert Shl(1, 16) == 0x1_0000000000000000_0000000000000000;
    assert Shl(1, 24) == 0x1_0000000000000000_0000000000000000_0000000000000000;
  }

  /** Work is the expected number of hashes: 2^256 divided by the number of hashes that meet the
      target, rounded down. */
  lemma WorkIsQuotient(bits: Uint32)
    ensures CompactToBig(bits) <= 0 ==> CalcWork(bits) == 0
    ensures CompactToBig(bits) > 0 ==>
              var w, t := CalcWork(bits), CompactToBig(bits); w * (t + 1) <= TWO_256 < (w + 1) * (t + 1)
  {
    OneLsh256();
    hide CompactToBig, Shl;
    var t := CompactToBig(bits);
    if t > 0 {
      var w := CalcWork(bits);
      QuotientBounds(Shl(1, 32), t + 1, w);
      assert (w + 1) * (t + 1) == w * (t + 1) + (t + 1);
    }
  }

  /** A harder (smaller) positive target is never worth less work. */
  lemma HarderIsMoreWork(easy: Uint32, hard: Uint32)
    requires 0 < CompactToBig(hard) <= CompactToBig(easy)
    ensures CalcWork(easy) <= CalcWork(hard)
  {
    var n, e, h := Shl(1, 32), CompactToBig(easy) + 1, CompactToBig(hard) + 1;
    var we, wh := CalcWork(easy), CalcWork(hard);
    QuotientBounds(n, e, we);
    QuotientBounds(n, h, wh);
    MulLe(we, we, h, e);
    CompareProducts(we, wh, h);
  }

  // ----- retargeting

  datatype Params = Params(
    powLimit: nat,
    powLimitBits: Uint32,
    targetTimespan: int,
    adjustmentFactor: int,
    reduceMinDifficulty: bool,
    reductionTime: int)
  {
    ghost predicate Valid() {
      powLimit < CompactLimit() && 0 < targetTimespan && 1 <= adjustmentFactor
    }

    function MinTimespan(): int
      requires adjustmentFactor != 0
    {
      targetTimespan / adjustmentFactor
    }

    function MaxTimespan(): int { targetTimespan * adjustmentFactor }
  }

  function AdjustedTimespan(p: Params, timespan: int): int
    requires p.adjustmentFactor != 0
  {
    if timespan < p.MinTimespan() then p.MinTimespan()
    else if timespan > p.MaxTimespan() then p.MaxTimespan()
    else timespan
  }

  function NextTarget(p: Params, timespan: int, oldTarget: int): int
    requires p.adjustmentFactor != 0 && p.targetTimespan != 0
  {
    var target := oldTarget * AdjustedTimespan(p, timespan) / p.targetTimespan;
    if target > p.powLimit then p.powLimit else target
  }

  function ComputeNextTarget(p: Params, timespan: int, currentBits: Uint32): int
    requires p.adjustmentFactor != 0 && p.targetTimespan != 0
  {
    BigToCompact(NextTarget(p, timespan, CompactToBig(currentBits)))
  }

  lemma MinBelowMax(p: Params)
    requires p.Valid()
    ensures 0 <= p.MinTimespan() <= p.targetTimespan <= p.MaxTimespan()
  {
    var k, f, t := p.MinTimespan(), p.adjustmentFactor, p.targetTimespan;
    QuotientBounds(t, f, k);
    CompareProducts(0, k, f);
    MulLe(k, k, 1, f);
    MulLe(t, t, 1, f);
  }

  lemma NextTargetBounds(p: Params, timespan: int, oldTarget: nat)
    requires p.Valid()
    ensures 0 <= NextTarget(p, timespan, oldTarget) <= p.powLimit
    ensures NextTarget(p, timespan, oldTarget) <= p.adjustmentFactor * oldTarget
  {
    var t, span := AdjustedTimespan(p, timespan), p.targetTimespan;
    MinBelowMax(p);
    MulLe(oldTarget, oldTarget, t, p.MaxTimespan());
    var most := p.adjustmentFactor * oldTarget;
    assert oldTarget * p.MaxTimespan() == most * span;
    MulLe(0, p.adjustmentFactor, 0, oldTarget);
    QuotientMono(oldTarget * t, most * span, span);
    QuotientOf(most * span, span, most);
    QuotientMono(0, oldTarget * t, span);
    QuotientOf(0, span, 0);
  }

  /** The hardest target a retarget can give, however short the interval was. */
  function HardestTarget(p: Params, oldTarget: int): int
    requires p.adjustmentFactor != 0 && p.targetTimespan != 0
  {
    Min(p.powLimit, oldTarget * p.MinTimespan() / p.targetTimespan)
  }

  lemma NextTargetAtLeast(p: Params, timespan: int, oldTarget: nat)
    requires p.Valid()
    ensures 0 <= HardestTarget(p, oldTarget) <= NextTarget(p, timespan, oldTarget)
    ensures timespan <= p.MinTimespan() ==> HardestTarget(p, oldTarget) == NextTarget(p, timespan, oldTarget)
  {
    MinBelowMax(p);
    var least, t, span := p.MinTimespan(), AdjustedTimespan(p, timespan), p.targetTimespan;
    MulLe(oldTarget, oldTarget, least, t);
    QuotientMono(oldTarget * least, oldTarget * t, span);
    QuotientMono(0, oldTarget * least, span);
    QuotientOf(0, span, 0);
    NextTargetBounds(p, timespan, oldTarget);
  }

  /** A retarget never exceeds the proof-of-work limit nor the adjustment factor times the
      previous target, however long the interval took, and never falls below the smaller of
      that limit and the previous target scaled down to the minimal timespan, as packed. */
  lemma RetargetIsBounded(p: Params, timespan: int, bits: Uint32)
    requires p.Valid() && CompactToBig(bits) >= 0
    ensures 0 <= ComputeNextTarget(p, timespan, bits) < 0x1_0000_0000
    ensures var next := CompactToBig(ComputeNextTarget(p, timespan, bits));
            0 <= next <= p.powLimit && next <= p.adjustmentFactor * CompactToBig(bits)
    ensures 0 <= BigToCompact(HardestTarget(p, CompactToBig(bits))) < 0x1_0000_0000
    ensures CompactToBig(BigToCompact(HardestTarget(p, CompactToBig(bits))))
         <= CompactToBig(ComputeNextTarget(p, timespan, bits))
    ensures timespan <= p.targetTimespan / p.adjustmentFactor ==>
              ComputeNextTarget(p, timespan, bits) == BigToCompact(HardestTarget(p, CompactToBig(bits)))
  {
    var target := CompactToBig(bits);
    NextTargetBounds(p, timespan, target);
    NextTargetAtLeast(p, timespan, target);
    CompactIsGreatestBelow(NextTarget(p, timespan, target));
    RoundingIsMonotone(HardestTarget(p, target), NextTarget(p, timespan, target));
  }

  /** t is the old target times the timespan over the intended timespan, rounded down. */
  predicate Scaled(p: Params, t: int, last: int, timespan: int) {
    t * p.targetTimespan <= last * timespan < t * p.targetTimespan + p.targetTimespan
  }

  /** The new target follows the timespan, taken as no less than the intended timespan over the
      factor and no more than the factor times it, unless that is above the limit. */
  lemma TargetFollows(p: Params, timespan: int, oldTarget: nat)
    requires p.Valid()
    ensures var t, intended, f := NextTarget(p, timespan, oldTarget), p.targetTimespan, p.adjustmentFactor;
            var span := if timespan < intended / f then intended / f
                        else if timespan > intended * f then intended * f else timespan;
            && (t < p.powLimit ==> Scaled(p, t, oldTarget, span))
            && (t >= p.powLimit ==> t == p.powLimit && p.powLimit * intended <= oldTarget * span)
  {
    var n := oldTarget * AdjustedTimespan(p, timespan);
    QuotientBounds(n, p.targetTimespan, n / p.targetTimespan);
    if n / p.targetTimespan > p.powLimit {
      MulLe(p.powLimit, n / p.targetTimespan, p.targetTimespan, p.targetTimespan);
    }
  }

  /** The next bits are the hardest-rounded: of all representable targets at most the limit and
      at most the scaled old target, they stand for the greatest. */
  lemma RetargetFollows(p: Params, timespan: int, bits: Uint32)
    requires p.Valid() && CompactToBig(bits) >= 0
    ensures 0 <= ComputeNextTarget(p, timespan, bits) < 0x1_0000_0000
    ensures var next, last := CompactToBig(ComputeNextTarget(p, timespan, bits)), CompactToBig(bits);
            var intended, f := p.targetTimespan, p.adjustmentFactor;
            var span := if timespan < intended / f then intended / f
                        else if timespan > intended * f then intended * f else timespan;
            && next <= p.powLimit && next * intended <= last * span
            && forall b: Uint32 ::
                 CompactToBig(b) <= p.powLimit && CompactToBig(b) * intended <= last * span ==> CompactToBig(b) <= next
  {
    var last := CompactToBig(bits);
    var span := AdjustedTimespan(p, timespan);
    var t := NextTarget(p, timespan, last);
    TargetFollows(p, timespan, last);
    NextTargetBounds(p, timespan, last);
    CompactIsGreatestBelow(t);
    var next := CompactToBig(ComputeNextTarget(p, timespan, bits));
    hide CompactToBig, BigToCompact, NextTarget;
    MulLe(next, t, p.targetTimespan, p.targetTimespan);
    forall b: Uint32 | CompactToBig(b) <= p.powLimit && CompactToBig(b) * p.targetTimespan <= last * span
      ensures CompactToBig(b) <= t
    {
      if t < p.powLimit { CompareProducts(CompactToBig(b), t, p.targetTimespan); }
    }
  }

  lemma NextTargetMono(p: Params, fast: int, slow: int, oldTarget: nat)
    requires p.Valid() && fast <= slow
    ensures NextTarget(p, fast, oldTarget) <= NextTarget(p, slow, oldTarget)
  {
    MinBelowMax(p);
    var a, b := AdjustedTimespan(p, fast), AdjustedTimespan(p, slow);
    MulLe(oldTarget, oldTarget, a, b);
    QuotientMono(oldTarget * a, oldTarget * b, p.targetTimespan);
  }

  /** A slower interval never yields a harder target. */
  lemma RetargetIsMonotone(p: Params, fast: int, slow: int, bits: Uint32)
    requires p.Valid() && CompactToBig(bits) >= 0 && fast <= slow
    ensures 0 <= ComputeNextTarget(p, fast, bits) < 0x1_0000_0000
    ensures 0 <= ComputeNextTarget(p, slow, bits) < 0x1_0000_0000
    ensures CompactToBig(ComputeNextTarget(p, fast, bits)) <= CompactToBig(ComputeNextTarget(p, slow, bits))
  {
    var target := CompactToBig(bits);
    NextTargetBounds(p, fast, target);
    NextTargetBounds(p, slow, target);
    NextTargetMono(p, fast, slow, target);
    RoundingIsMonotone(NextTarget(p, fast, target), NextTarget(p, slow, target));
  }

  // ----- the easiest difficulty after a checkpoint

  function Pow(b: int, k: nat): int { if k == 0 then 1 else Pow(b, k - 1) * b }

  function CeilDiv(a: int, b: int): nat
    requires b > 0
  {
    if a <= 0 then 0 else
      QuotientMono(0, a + b - 1, b);
      QuotientOf(0, b, 0);
      (a + b - 1) / b
  }

  function Min(a: int, b: int): int { if a < b then a else b }

  /** The closed form: one factor per full or started maximal timespan, capped. */
  function EasiestTarget(p: Params, target: int, seconds: int): int
    requires p.Valid()
  {
    MinBelowMax(p);
    Min(p.powLimit, target * Pow(p.adjustmentFactor, CeilDiv(seconds, p.MaxTimespan())))
  }

  /** Nothing eases the target before any time has passed, one factor does within the first
      maximal timespan, and every further one is one more factor. */
  lemma EasiestSteps(p: Params, target: int, seconds: int)
    requires p.Valid()
    ensures var span, f := p.MaxTimespan(), p.adjustmentFactor;
            && (seconds <= 0 ==> EasiestTarget(p, target, seconds) == Min(p.powLimit, target))
            && (0 < seconds <= span ==> EasiestTarget(p, target, seconds) == Min(p.powLimit, target * f))
            && (seconds > 0 ==> EasiestTarget(p, target, seconds + span) == EasiestTarget(p, target * f, seconds))
  {
    MinBelowMax(p);
    var span, f := p.MaxTimespan(), p.adjustmentFactor;
    FirstPowers(f);
    hide Params.MaxTimespan, Params.Valid, Pow;
    if seconds > 0 {
      OneMoreSpan(seconds, span);
      FactorFirst(target, f, CeilDiv(seconds, span));
    }
  }

  lemma FirstPowers(f: int)
    ensures Pow(f, 0) == 1 && Pow(f, 1) == f
  {
  }

  lemma FactorFirst(t: int, f: int, k: nat)
    ensures t * Pow(f, k + 1) == t * f * Pow(f, k)
  {
    var x := Pow(f, k);
    assert t * (x * f) == t * f * x;
  }

  lemma OneMoreSpan(a: int, b: int)
    requires a > 0 && b > 0
    ensures CeilDiv(a + b, b) == CeilDiv(a, b) + 1 && (a <= b ==> CeilDiv(a, b) == 1)
  {
    var n := a + b - 1;
    var k := n / b;
    QuotientBounds(n, b, k);
    assert (k + 1) * b == k * b + b;
    QuotientOf(n + b, b, k + 1);
    if a <= b { QuotientOf(n, b, 1); }
  }

  method CalcEasiestDifficulty(p: Params, bits: Uint32, seconds: int) returns (easiest: int)
    requires p.Valid()
    ensures p.reduceMinDifficulty && seconds > p.reductionTime ==> easiest == p.powLimitBits
    ensures !(p.reduceMinDifficulty && seconds > p.reductionTime)
            ==> easiest == BigToCompact(EasiestTarget(p, CompactToBig(bits), seconds))
  {
    if p.reduceMinDifficulty && seconds > p.reductionTime {
      return p.powLimitBits;
    }
    MinBelowMax(p);
    var target, maxTimespan := CompactToBig(bits), p.MaxTimespan();
    var newTarget, left := target, seconds;
    ghost var i: nat := 0;
    while left > 0 && newTarget < p.powLimit
      invariant newTarget == target * Pow(p.adjustmentFactor, i)
      invariant left == seconds - i * maxTimespan
      invariant i <= CeilDiv(seconds, maxTimespan)
      decreases left
    {
      StepWithinCeil(seconds, maxTimespan, i);
      OneMoreFactor(target, p.adjustmentFactor, i, maxTimespan);
      newTarget := newTarget * p.adjustmentFactor;
      left := left - maxTimespan;
      i := i + 1;
    }
    if left <= 0 {
      CeilReached(seconds, maxTimespan, i);
    } else {
      GrowsPast(p, target, i, CeilDiv(seconds, maxTimespan));
    }
    if newTarget > p.powLimit {
      newTarget := p.powLimit;
    }
    easiest := BigToCompact(newTarget);
  }

  lemma OneMoreFactor(target: int, factor: int, i: nat, span: int)
    ensures target * Pow(factor, i + 1) == target * Pow(factor, i) * factor
    ensures (i + 1) * span == i * span + span
  {
    var q := Pow(factor, i);
    assert target * (q * factor) == target * q * factor;
  }

  lemma StepWithinCeil(a: int, b: int, i: nat)
    requires b > 0 && a - i * b > 0
    ensures i + 1 <= CeilDiv(a, b)
  {
    MulLe(0, i, b, b);
    assert (i + 1) * b == i * b + b;
    QuotientMono((i + 1) * b, a + b - 1, b);
    QuotientOf((i + 1) * b, b, i + 1);
  }

  lemma CeilReached(a: int, b: int, i: nat)
    requires b > 0 && a - i * b <= 0 && i <= CeilDiv(a, b)
    ensures i == CeilDiv(a, b)
  {
    if a > 0 {
      var k := CeilDiv(a, b);
      QuotientBounds(a + b - 1, b, k);
      CompareProducts(k, i, b);
    }
  }

  lemma {:induction false} GrowsPast(p: Params, target: int, i: nat, k: nat)
    requires p.Valid() && i <= k && target * Pow(p.adjustmentFactor, i) >= p.powLimit
    ensures target * Pow(p.adjustmentFactor, k) >= p.powLimit
    decreases k
  {
    if i < k {
      GrowsPast(p, target, i, k - 1);
      OneMoreFactor(target, p.adjustmentFactor, k - 1, 0);
      var t := target * Pow(p.adjustmentFactor, k - 1);
      MulLe(t, t, 1, p.adjustmentFactor);
    }
  }
}
