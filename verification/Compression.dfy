/** Compressed amounts, scripts and transaction outputs. */
module Compression {
  import opened Options
  import opened Ledger
  import opened Vlq

  // ----- amounts

  /** Divides out factors of ten, at most nine of them. */
  function Strip(amount: nat, exponent: nat): (nat, nat)
    requires exponent <= 9
    decreases 9 - exponent
  {
    if amount % 10 == 0 && exponent < 9 then Strip(amount / 10, exponent + 1) else (amount, exponent)
  }

  function Scale(n: nat, k: nat): nat {
    if k == 0 then n else 10 * Scale(n, k - 1)
  }

  /** The compressed form of an amount, over the naturals. */
  function Compressed(amount: nat): nat {
    if amount == 0 then 0 else
      var (n, exponent) := Strip(amount, 0);
      if exponent < 9 then 1 + 10 * (9 * (n / 10) + n % 10 - 1) + exponent else 10 + 10 * (n - 1)
  }

  function Mantissa(x: nat): nat
    requires x > 0
  {
    var y := (x - 1) / 10;
    if (x - 1) % 10 < 9 then y / 9 * 10 + (y % 9 + 1) else y + 1
  }

  function Decompressed(x: nat): nat {
    if x == 0 then 0 else Scale(Mantissa(x), (x - 1) % 10)
  }

  lemma {:induction false} StripFacts(amount: nat, e: nat)
    requires amount > 0 && e <= 9
    ensures var (n, f) := Strip(amount, e);
            n > 0 && e <= f <= 9 && (f == 9 || n % 10 != 0) && amount == Scale(n, f - e)
    decreases 9 - e
  {
    if amount % 10 == 0 && e < 9 { StripFacts(amount / 10, e + 1); }
  }

  lemma {:induction false} StripScaled(n: nat, k: nat, e: nat)
    requires n > 0 && e + k <= 9
    ensures Strip(Scale(n, k), e) == Strip(n, e + k)
  {
    if k > 0 { StripScaled(n, k - 1, e + 1); }
  }

  /** The digits packed into a compressed amount can be taken apart again. */
  lemma PackedDigits(q: nat, d: nat, f: nat)
    requires 1 <= d <= 9 && f < 9
    ensures var x := 1 + 10 * (9 * q + d - 1) + f; (x - 1) % 10 == f && Mantissa(x) == 10 * q + d
  {
    var y := 9 * q + d - 1;
    var x := 1 + 10 * y + f;
    assert (x - 1) / 10 == y && (x - 1) % 10 == f;
    assert y / 9 == q && y % 9 == d - 1;
  }

  lemma DecompressUndoesCompress(amount: nat)
    ensures Decompressed(Compressed(amount)) == amount
  {
    hide Strip, Scale, Mantissa;
    if amount > 0 {
      StripFacts(amount, 0);
      var (n, f) := Strip(amount, 0);
      if f < 9 {
        PackedDigits(n / 10, n % 10, f);
      } else {
        PackedNine(n);
      }
    }
  }

  lemma PackedNine(n: nat)
    requires n > 0
    ensures var x := 10 + 10 * (n - 1); (x - 1) % 10 == 9 && Mantissa(x) == n
  {
  }

  lemma {:induction false} CompressUndoesDecompress(x: nat)
    ensures Compressed(Decompressed(x)) == x
  {
    if x > 0 {
      var n, f, y := Mantissa(x), (x - 1) % 10, (x - 1) / 10;
      StripScaled(n, f, 0);
      ScalePositive(n, f);
      if f < 9 {
        assert n % 10 == y % 9 + 1 && n / 10 == y / 9;
      }
      assert Strip(n, f) == (n, f);
    }
  }

  lemma {:induction false} ScalePositive(n: nat, k: nat)
    requires n > 0
    ensures Scale(n, k) > 0 && Scale(n, k) >= n
    ensures k > 0 ==> Scale(n, k) >= 10 * n
  {
    if k > 0 { ScalePositive(n, k - 1); }
  }

  /** Amounts whose compressed form fits in 64 bits: multiples of ten, and amounts up to
      about a ninth of the range. */
  predicate Compressible(amount: Uint64) {
    amount % 10 == 0 || 9 * amount + amount % 10 - 9 < TWO_64
  }

  lemma CompressedBound(amount: nat)
    requires amount > 0
    ensures amount % 10 != 0 ==> Compressed(amount) == 9 * amount + amount % 10 - 9
    ensures amount % 10 == 0 ==> Compressed(amount) <= amount + 10
  {
    StripFacts(amount, 0);
    var (n, f) := Strip(amount, 0);
    ScalePositive(n, f);
    if amount % 10 == 0 {
      assert f > 0;
      assert Strip(amount, 0) == Strip(amount / 10, 1);
      StripBelow(amount / 10, 1);
    }
  }

  lemma {:induction false} StripBelow(amount: nat, e: nat)
    requires e <= 9
    ensures Strip(amount, e).0 <= amount && Strip(amount, e).1 <= 9
    decreases 9 - e
  {
    if amount % 10 == 0 && e < 9 { StripBelow(amount / 10, e + 1); }
  }

  /** The 64-bit compressor is exact precisely for compressible amounts; every amount up to
      a ninth of the 64-bit range is one. */
  lemma ExactlyCompressible(amount: Uint64)
    ensures Compressible(amount) <==> Compressed(amount) < TWO_64
    ensures amount <= (TWO_64 - 1) / 9 ==> Compressible(amount)
  {
    if amount > 0 {
      CompressedBound(amount);
    }
  }

  method CompressAmount(amount: Uint64) returns (r: Uint64)
    ensures r == Wrap(Compressed(amount))
    ensures Compressible(amount) ==> r == Compressed(amount)
  {
    ExactlyCompressible(amount);
    if amount == 0 { return 0; }
    var n, exponent := amount, 0;
    while n % 10 == 0 && exponent < 9
      invariant 0 <= exponent <= 9 && 0 < n
      invariant Strip(n, exponent) == Strip(amount, 0)
    {
      n, exponent := n / 10, exponent + 1;
    }
    if exponent < 9 {
      r := Wrap(1 + 10 * (9 * (n / 10) + n % 10 - 1) + exponent);
    } else {
      r := Wrap(10 + 10 * (n - 1));
    }
  }

  lemma WrapTenfold(x: nat)
    ensures Wrap(10 * Wrap(x)) == Wrap(10 * x)
  {
    var q := x / TWO_64;
    assert 10 * x == 10 * Wrap(x) + (10 * q) * TWO_64;
    WrapShift(10 * Wrap(x), 10 * q);
  }

  lemma {:induction false} WrapShift(x: nat, q: nat)
    ensures Wrap(x + q * TWO_64) == Wrap(x)
  {
    if q > 0 {
      WrapShift(x, q - 1);
      assert x + q * TWO_64 == x + (q - 1) * TWO_64 + TWO_64;
    }
  }

  method DecompressAmount(compressed: Uint64) returns (r: Uint64)
    ensures r == Wrap(Decompressed(compressed))
  {
    if compressed == 0 { return 0; }
    var x := compressed - 1;
    var exponent := x % 10;
    x := x / 10;
    r := if exponent < 9 then x / 9 * 10 + (x % 9 + 1) else x + 1;
    ghost var n, k := r, 0;
    assert n == Mantissa(compressed);
    while exponent > 0
      invariant 0 <= exponent && k + exponent == (compressed - 1) % 10
      invariant r == Wrap(Scale(n, k))
    {
      WrapTenfold(Scale(n, k));
      r := Wrap(r * 10);
      exponent, k := exponent - 1, k + 1;
    }
  }

  /** The stored amount: compressed, in 64 bits. */
  function StoredAmount(amount: Uint64): Uint64 { Wrap(Compressed(amount)) }

  function LoadedAmount(x: Uint64): Uint64 { Wrap(Decompressed(x)) }

  /** An amount survives storing and loading exactly when it is compressible: one whose
      compressed form wraps round never comes back by accident. */
  lemma AmountRoundTrip(amount: Uint64)
    ensures LoadedAmount(StoredAmount(amount)) == amount <==> Compressible(amount)
  {
    hide Compressed, Decompressed, Compressible;
    if Compressible(amount) {
      ExactlyCompressible(amount);
      WrapExact(Compressed(amount));
      DecompressUndoesCompress(amount);
    } else {
      WrappedIsLost(amount);
    }
  }

  // ----- amounts that wrap round
  //
  // Let the amount a, with last digit d, wrap k times, and let the wrapped value have mantissa m,
  // with last digit `digit`, and exponent e.  Loading gives 10^e * m, less j times 2^64.  If that is
  // a again, then 9 * (10^e - 1) * m == e + digit - d modulo 2^64.

  predicate Coincides(a: int, m: int, j: int, k: int, d: int, digit: int, e: int) {
    && 0 <= a < TWO_64 && 1 <= d <= 9 && 1 <= digit <= 9 && 1 <= m && k >= 1 && j >= 0
    && 9 * m + digit - 9 + e < TWO_64
    && 9 * a + d == 9 * m + digit + e + k * TWO_64
  }

  /** A bound for the mantissa of a wrapped value. */
  const NINTH := (TWO_64 + 9) / 9

  // The factor is odd, so m is determined by e + digit - d.  Few of the possible values are small
  // enough; the multiplier below is the inverse of the factor for e = 2, 4, 6 and 8.

  lemma Residue2(m: int, t: int, z: int)
    requires -5 <= t <= 9 && 0 < m <= NINTH && m == 13705661702352102323 * t + TWO_64 * z
    ensures (t == -4 && m == 517585411720245556)
  {
  }

  lemma Residue4(m: int, t: int, z: int)
    requires -3 <= t <= 11 && 0 < m <= NINTH && m == 15842828238033401399 * t + TWO_64 * z
    ensures (t == 7 && m == 219333223976500097)
  {
  }

  lemma Residue6(m: int, t: int, z: int)
    requires -1 <= t <= 13 && 0 < m <= NINTH && m == 12483635422780629383 * t + TWO_64 * z
    ensures (t == 3 && m == 557418120922784917) || (t == 6 && m == 1114836241845569834)
         || (t == 9 && m == 1672254362768354751)
  {
  }

  lemma Residue8(m: int, t: int, z: int)
    requires 1 <= t <= 15 && 0 < m <= NINTH && m == 16430456183658535111 * t + TWO_64 * z
    ensures (t == 9 && m == 300153063250403071)
  {
  }

  // None of those has the last digits it needs.

  lemma EvenDigit(a: int, half: int)
    requires a == 2 * half
    ensures a % 10 % 2 == 0
  {
  }

  lemma NoReturn2(a: int, m: int, j: int, k: int, d: int, digit: int)
    requires Coincides(a, m, j, k, d, digit, 2)
    ensures !(100 * m == a + j * TWO_64 && m % 10 == digit && a % 10 == d)
  {
    if 100 * m == a + j * TWO_64 && a % 10 == d {
      EvenDigit(a, 50 * m - j * (TWO_64 / 2));
      Residue2(m, 2 + digit - d, 13705661702352102323 * (k + 9 * j) - 662 * m);
    }
  }

  lemma NoReturn4(a: int, m: int, j: int, k: int, d: int, digit: int)
    requires Coincides(a, m, j, k, d, digit, 4)
    ensures !(10000 * m == a + j * TWO_64 && m % 10 == digit && a % 10 == d)
  {
    if 10000 * m == a + j * TWO_64 && a % 10 == d {
      EvenDigit(a, 5000 * m - j * (TWO_64 / 2));
      Residue4(m, 4 + digit - d, 15842828238033401399 * (k + 9 * j) - 77288 * m);
    }
  }

  lemma NoReturn6(a: int, m: int, j: int, k: int, d: int, digit: int)
    requires Coincides(a, m, j, k, d, digit, 6)
    ensures !(1000000 * m == a + j * TWO_64 && m % 10 == digit && a % 10 == d)
  {
    if 1000000 * m == a + j * TWO_64 && a % 10 == d {
      EvenDigit(a, 500000 * m - j * (TWO_64 / 2));
      Residue6(m, 6 + digit - d, 12483635422780629383 * (k + 9 * j) - 6090647 * m);
    }
  }

  lemma NoReturn8(a: int, m: int, j: int, k: int, d: int, digit: int)
    requires Coincides(a, m, j, k, d, digit, 8)
    ensures !(100000000 * m == a + j * TWO_64 && m % 10 == digit && a % 10 == d)
  {
    if 100000000 * m == a + j * TWO_64 && a % 10 == d {
      EvenDigit(a, 50000000 * m - j * (TWO_64 / 2));
      Residue8(m, 8 + digit - d, 16430456183658535111 * (k + 9 * j) - 801627125 * m);
    }
  }

  lemma {:induction false} ScaleIs(m: nat, e: nat, power: nat)
    requires power == Scale(1, e)
    ensures Scale(m, e) == power * m
  {
    if e > 0 {
      ScaleIs(m, e - 1, Scale(1, e - 1));
      assert 10 * (Scale(1, e - 1) * m) == (10 * Scale(1, e - 1)) * m;
    }
  }

  lemma PowersOfTen()
    ensures Scale(1, 0) == 1 && Scale(1, 2) == 100 && Scale(1, 4) == 10000 && Scale(1, 6) == 1000000
    ensures Scale(1, 8) == 100000000
  {
    assert Scale(1, 1) == 10 * Scale(1, 0) && Scale(1, 2) == 10 * Scale(1, 1) && Scale(1, 3) == 10 * Scale(1, 2);
    assert Scale(1, 4) == 10 * Scale(1, 3) && Scale(1, 5) == 10 * Scale(1, 4) && Scale(1, 6) == 10 * Scale(1, 5);
    assert Scale(1, 7) == 10 * Scale(1, 6) && Scale(1, 8) == 10 * Scale(1, 7);
  }

  /** The digits of a compressed value with exponent below nine. */
  lemma MantissaDigits(y: nat)
    requires y > 0 && (y - 1) % 10 < 9
    ensures var m := Mantissa(y); 1 <= m && 1 <= m % 10 && y == 9 * m + m % 10 - 9 + (y - 1) % 10
  {
  }

  /** The compressed form of an amount that wraps is odd, so its exponent is even. */
  lemma WrappedExponent(a: Uint64)
    requires !Compressible(a)
    ensures Compressed(a) == 9 * a + a % 10 - 9 && StoredAmount(a) % 2 == 1
            && (StoredAmount(a) - 1) % 10 in {0, 2, 4, 6, 8}
  {
    CompressedBound(a);
    assert Compressed(a) % 2 == 1;
  }

  lemma WrappedIsLost(a: Uint64)
    requires !Compressible(a)
    ensures LoadedAmount(StoredAmount(a)) != a
  {
    WrappedExponent(a);
    var y, k := StoredAmount(a), Compressed(a) / TWO_64;
    var e, m := (y - 1) % 10, Mantissa(y);
    MantissaDigits(y);
    hide Compressed, Scale, Mantissa;
    var j := Scale(m, e) / TWO_64;
    assert Coincides(a, m, j, k, a % 10, m % 10, e);
    hide Coincides;
    if Scale(m, e) == a + j * TWO_64 { NoneReturns(a, m, j, k, e); }
  }

  lemma NoneReturns(a: Uint64, m: nat, j: nat, k: nat, e: nat)
    requires e in {0, 2, 4, 6, 8} && Coincides(a, m, j, k, a % 10, m % 10, e)
    ensures Scale(m, e) != a + j * TWO_64
  {
    PowersOfTen();
    hide Scale, Coincides;
    var d, digit := a % 10, m % 10;
    if e == 0 {
      ScaleIs(m, 0, 1);
      NoReturn0(a, m, j, k, d, digit);
    } else if e == 2 {
      ScaleIs(m, 2, 100);
      NoReturn2(a, m, j, k, d, digit);
    } else if e == 4 {
      ScaleIs(m, 4, 10000);
      NoReturn4(a, m, j, k, d, digit);
    } else if e == 6 {
      ScaleIs(m, 6, 1000000);
      NoReturn6(a, m, j, k, d, digit);
    } else {
      ScaleIs(m, 8, 100000000);
      NoReturn8(a, m, j, k, d, digit);
    }
  }

  lemma NoReturn0(a: int, m: int, j: int, k: int, d: int, digit: int)
    requires Coincides(a, m, j, k, d, digit, 0)
    ensures m != a + j * TWO_64
  {
  }

  /** Beyond that the compressor wraps round: this amount comes back as ten thousand. */
  lemma LargeAmountIsLost()
    ensures !Compressible(2049638230412172403)
    ensures LoadedAmount(StoredAmount(2049638230412172403)) == 10000
  {
    CompressedBound(2049638230412172403);
    assert StoredAmount(2049638230412172403) == 5;
    assert Mantissa(5) == 1;
    assert Scale(1, 4) == 10 * Scale(1, 3) && Scale(1, 3) == 10 * Scale(1, 2) && Scale(1, 2) == 10 * Scale(1, 1);
  }

  // ----- scripts

  const OP_DATA_20: Byte := 0x14
  const OP_DATA_33: Byte := 0x21
  const OP_DATA_65: Byte := 0x41
  const OP_DUP: Byte := 0x76
  const OP_EQUAL: Byte := 0x87
  const OP_EQUALVERIFY: Byte := 0x88
  const OP_HASH160: Byte := 0xa9
  const OP_CHECKSIG: Byte := 0xac

  const NUM_SPECIAL_SCRIPTS := 6

  /** Public-key parsing: which serialized keys are valid, and the uncompressed form of a
      compressed one. */
  datatype Curve = Curve(valid: seq<Byte> -> bool, expand: seq<Byte> -> seq<Byte>) {
    /** A valid uncompressed key is recovered from its x coordinate and the parity of y. */
    ghost predicate Sound() {
      forall key: seq<Byte> :: |key| == 65 && key[0] == 4 && valid(key) ==>
        valid([2 + key[64] % 2] + key[1..33]) && expand([2 + key[64] % 2] + key[1..33]) == key
    }
  }

  predicate IsPubKeyHash(s: seq<Byte>) {
    && |s| == 25 && s[0] == OP_DUP && s[1] == OP_HASH160 && s[2] == OP_DATA_20
    && s[23] == OP_EQUALVERIFY && s[24] == OP_CHECKSIG
  }

  predicate IsScriptHash(s: seq<Byte>) {
    |s| == 23 && s[0] == OP_HASH160 && s[1] == OP_DATA_20 && s[22] == OP_EQUAL
  }

  predicate IsCompressedPubKey(curve: Curve, s: seq<Byte>) {
    && |s| == 35 && s[0] == OP_DATA_33 && s[34] == OP_CHECKSIG && (s[1] == 2 || s[1] == 3)
    && curve.valid(s[1..34])
  }

  predicate IsUncompressedPubKey(curve: Curve, s: seq<Byte>) {
    && |s| == 67 && s[0] == OP_DATA_65 && s[66] == OP_CHECKSIG && s[1] == 4
    && curve.valid(s[1..66])
  }

  predicate IsStandard(curve: Curve, s: seq<Byte>) {
    IsPubKeyHash(s) || IsScriptHash(s) || IsCompressedPubKey(curve, s) || IsUncompressedPubKey(curve, s)
  }

  /** The type byte and payload of a standard script. */
  function StandardForm(curve: Curve, s: seq<Byte>): (Byte, seq<Byte>)
    requires IsStandard(curve, s)
  {
    if IsPubKeyHash(s) then (0, s[3..23])
    else if IsScriptHash(s) then (1, s[2..22])
    else if IsCompressedPubKey(curve, s) then (s[1], s[2..34])
    else (4 + s[65] % 2, s[2..34])
  }

  function CompressedScript(curve: Curve, s: seq<Byte>): (c: seq<Byte>) {
    if IsStandard(curve, s) then
      var (kind, payload) := StandardForm(curve, s);
      [kind] + payload
    else Encode(|s| + NUM_SPECIAL_SCRIPTS, true) + s
  }

  function CompressedScriptSize(curve: Curve, s: seq<Byte>): nat {
    if IsPubKeyHash(s) then 21
    else if IsScriptHash(s) then 21
    else if IsCompressedPubKey(curve, s) || IsUncompressedPubKey(curve, s) then 33
    else Size(|s| + NUM_SPECIAL_SCRIPTS) + |s|
  }

  lemma CompressedScriptFills(curve: Curve, s: seq<Byte>)
    ensures |CompressedScript(curve, s)| == CompressedScriptSize(curve, s) > 0
  {
  }

  /** How many bytes the compressed script at the front of the data occupies. */
  function DecodedScriptSize(bytes: seq<Byte>): int {
    var (size, read) := Decode(bytes, 0);
    if read == 0 then 0
    else if size <= 1 then 21
    else if size <= 5 then 33
    else size - NUM_SPECIAL_SCRIPTS + read
  }

  /** The data holds the whole payload its leading size announces. */
  predicate HoldsScript(bytes: seq<Byte>) {
    var (size, read) := Decode(bytes, 0);
    if size <= 1 then read + 20 <= |bytes|
    else if size <= 3 then read + 32 <= |bytes|
    else if size <= 5 then 33 <= |bytes|
    else read + size - NUM_SPECIAL_SCRIPTS <= |bytes|
  }

  /** The original script, or nothing when a key does not parse. */
  function DecompressedScript(curve: Curve, bytes: seq<Byte>): Option<seq<Byte>>
    requires HoldsScript(bytes)
  {
    if bytes == [] then None else
      var (size, read) := Decode(bytes, 0);
      if size == 0 then
        Some([OP_DUP, OP_HASH160, OP_DATA_20] + bytes[read..read + 20] + [OP_EQUALVERIFY, OP_CHECKSIG])
      else if size == 1 then Some([OP_HASH160, OP_DATA_20] + bytes[read..read + 20] + [OP_EQUAL])
      else if size <= 3 then Some([OP_DATA_33, size] + bytes[read..read + 32] + [OP_CHECKSIG])
      else if size <= 5 then
        var key := [size - 2] + bytes[1..33];
        if curve.valid(key) then Some([OP_DATA_65] + curve.expand(key) + [OP_CHECKSIG]) else None
      else Some(bytes[read..read + (size - NUM_SPECIAL_SCRIPTS)])
  }

  lemma DecodeKind(kind: Byte, rest: seq<Byte>)
    requires kind < 128
    ensures Decode([kind] + rest, 0) == (kind, 1)
  {
    RoundTrip(kind, rest);
    assert Encode(kind, true) == [kind];
  }

  /** Standard scripts shrink to a type byte and payload that determine them. */
  lemma StandardRoundTrip(curve: Curve, s: seq<Byte>, rest: seq<Byte>)
    requires IsStandard(curve, s) && curve.Sound()
    ensures var c := CompressedScript(curve, s);
            DecodedScriptSize(c + rest) == |c| && HoldsScript(c) && DecompressedScript(curve, c) == Some(s)
  {
    hide Decode;
    var (kind, payload) := StandardForm(curve, s);
    DecodeKind(kind, payload);
    DecodeKind(kind, payload + rest);
    assert CompressedScript(curve, s) + rest == [kind] + (payload + rest);
    if IsPubKeyHash(s) || IsScriptHash(s) {
      HashForm(curve, s);
    } else {
      PubKeyForm(curve, s, payload);
      assert ([kind] + payload)[1..33] == payload;
    }
  }

  lemma HashForm(curve: Curve, s: seq<Byte>)
    requires IsPubKeyHash(s) || IsScriptHash(s)
    ensures HoldsScript(CompressedScript(curve, s)) && DecompressedScript(curve, CompressedScript(curve, s)) == Some(s)
  {
    hide Decode;
    var (kind, payload) := StandardForm(curve, s);
    DecodeKind(kind, payload);
    assert ([kind] + payload)[1..21] == payload;
    if IsPubKeyHash(s) {
      assert s == [OP_DUP, OP_HASH160, OP_DATA_20] + payload + [OP_EQUALVERIFY, OP_CHECKSIG];
    } else {
      assert s == [OP_HASH160, OP_DATA_20] + payload + [OP_EQUAL];
    }
  }

  lemma PubKeyForm(curve: Curve, s: seq<Byte>, payload: seq<Byte>)
    requires curve.Sound() && (IsCompressedPubKey(curve, s) || IsUncompressedPubKey(curve, s)) && payload == s[2..34]
    ensures IsCompressedPubKey(curve, s) ==> s == [OP_DATA_33, s[1]] + payload + [OP_CHECKSIG]
    ensures IsUncompressedPubKey(curve, s) ==>
              var key := [2 + s[65] % 2] + payload;
              curve.valid(key) && s == [OP_DATA_65] + curve.expand(key) + [OP_CHECKSIG]
  {
    if IsUncompressedPubKey(curve, s) {
      var key := s[1..66];
      assert key[64] == s[65] && key[1..33] == payload;
    }
  }

  /** Script compression is invertible, and its length can be read off the front of any
      longer data. */
  lemma ScriptRoundTrip(curve: Curve, s: seq<Byte>, rest: seq<Byte>)
    requires curve.Sound() && |s| + NUM_SPECIAL_SCRIPTS < TWO_64
    ensures var c := CompressedScript(curve, s);
            DecodedScriptSize(c + rest) == |c| && HoldsScript(c) && DecompressedScript(curve, c) == Some(s)
  {
    if IsStandard(curve, s) {
      StandardRoundTrip(curve, s, rest);
    } else {
      hide Decode, IsStandard, StandardForm;
      var n := |s| + NUM_SPECIAL_SCRIPTS;
      var c := CompressedScript(curve, s);
      RoundTrip(n, s);
      RoundTrip(n, s + rest);
      assert c + rest == Encode(n, true) + (s + rest);
      assert c[Size(n)..Size(n) + |s|] == s;
    }
  }

  // ----- transaction outputs

  function CompressedTxOut(curve: Curve, amount: Uint64, script: seq<Byte>): seq<Byte> {
    Encode(StoredAmount(amount), true) + CompressedScript(curve, script)
  }

  function CompressedTxOutSize(curve: Curve, amount: Uint64, script: seq<Byte>): nat {
    Size(StoredAmount(amount)) + CompressedScriptSize(curve, script)
  }

  datatype TxOutResult = Decoded(amount: Uint64, script: Option<seq<Byte>>, read: nat) | Truncated

  /** Reads a compressed output from the front of the data. */
  function DecodeTxOut(curve: Curve, bytes: seq<Byte>): TxOutResult {
    var (amount, read) := Decode(bytes, 0);
    if read >= |bytes| then Truncated else
      var rest := bytes[read..];
      var size := DecodedScriptSize(rest);
      if |rest| < size || size < 0 || !HoldsScript(rest[..size]) then Truncated
      else Decoded(LoadedAmount(amount), DecompressedScript(curve, rest[..size]), read + size)
  }

  /** A decoded output has the size and script that were written, and the amount as the
      amount round trip returns it: the same one exactly when it is compressible. */
  lemma TxOutRoundTrip(curve: Curve, amount: Uint64, script: seq<Byte>, rest: seq<Byte>)
    requires curve.Sound() && |script| + NUM_SPECIAL_SCRIPTS < TWO_64
    ensures |CompressedTxOut(curve, amount, script)| == CompressedTxOutSize(curve, amount, script) > 0
    ensures var size, r := CompressedTxOutSize(curve, amount, script),
                           DecodeTxOut(curve, CompressedTxOut(curve, amount, script) + rest);
            && r == Decoded(LoadedAmount(StoredAmount(amount)), Some(script), size)
            && (r == Decoded(amount, Some(script), size) <==> Compressible(amount))
  {
    hide Decode, StoredAmount, LoadedAmount, CompressedScript, DecompressedScript, HoldsScript, DecodedScriptSize;
    hide Encode, CompressedScriptSize, Compressible;
    var a, c := StoredAmount(amount), CompressedScript(curve, script);
    CompressedScriptFills(curve, script);
    AmountRoundTrip(amount);
    RoundTrip(a, c + rest);
    var bytes := CompressedTxOut(curve, amount, script) + rest;
    assert bytes == Encode(a, true) + (c + rest);
    assert bytes[Size(a)..] == c + rest && (c + rest)[..|c|] == c;
    ScriptRoundTrip(curve, script, rest);
  }
}
