/** The stored formats in plain bytes: what the codecs write, told without them. */
module StoredFormats {
  import opened Ledger
  import Difficulty
  import opened Vlq
  import opened Compression
  import opened SpendJournal
  import opened IndexReload

  // ----- numbers

  lemma {:induction false} CommonStart(a: seq<Byte>, b: seq<Byte>, x: seq<Byte>, y: seq<Byte>)
    requires |a| == |b| && (LexLess(a, b) || (a == b && LexLess(x, y)))
    ensures LexLess(a + x, b + y)
  {
    if a == [] {
      assert a + x == x && b + y == y;
    } else {
      assert (a + x)[1..] == a[1..] + x && (b + y)[1..] == b[1..] + y;
      if a[0] == b[0] { CommonStart(a[1..], b[1..], x, y); }
    }
  }

  /** A smaller number has a shorter encoding, or one of the same length that comes first.  As
      every terminated string is the encoding of some number, this leaves only one encoding. */
  lemma {:induction false} EncodingKeepsOrder(m: nat, n: nat, last: bool)
    requires m < n
    ensures Size(m) < Size(n) || (Size(m) == Size(n) && LexLess(Encode(m, last), Encode(n, last)))
  {
    if m > 0x7f {
      var p, q := m / 128 - 1, n / 128 - 1;
      var x, y: seq<Byte> := [m % 128 + if last then 0 else 128], [n % 128 + if last then 0 else 128];
      if p < q { EncodingKeepsOrder(p, q, false); }
      if Size(m) == Size(n) { CommonStart(Encode(p, false), Encode(q, false), x, y); }
    }
  }

  /** The largest numbers of one, two and three bytes and their successors. */
  lemma KnownNumbers()
    ensures Encode(0, true) == [0] && Encode(127, true) == [0x7f] && Encode(128, true) == [0x80, 0x00]
    ensures Encode(16511, true) == [0xff, 0x7f] && Encode(16512, true) == [0x80, 0x80, 0x00]
    ensures Encode(2113663, true) == [0xff, 0xff, 0x7f]
  {
    assert Encode(0, false) == [0x80] && Encode(127, false) == [0xff];
    assert Encode(128, false) == [0x80, 0x80] && Encode(16511, false) == [0xff, 0xff];
  }

  // ----- amounts

  lemma {:induction false} ScaleIsPower(n: nat, k: nat)
    ensures Scale(n, k) == n * Difficulty.Pow(10, k)
  {
    if k > 0 { ScaleIsPower(n, k - 1); }
  }

  /** An amount with e < 9 zeros at its end, before them the digit d and before that the number q,
      is stored as one more than e plus ten times (9q + d - 1). */
  lemma AmountFormat(amount: nat, q: nat, d: nat, e: nat)
    requires 1 <= d <= 9 && e < 9 && amount == (10 * q + d) * Difficulty.Pow(10, e)
    ensures Compressed(amount) == 10 * (9 * q + d - 1) + e + 1
  {
    hide Compressed, Difficulty.Pow, Scale;
    ScaleIsPower(10 * q + d, e);
    ScaledFormat(10 * q + d, q, d, e);
  }

  lemma ScaledFormat(m: nat, q: nat, d: nat, e: nat)
    requires 1 <= d <= 9 && e < 9 && m == 10 * q + d
    ensures Compressed(Scale(m, e)) == 10 * (9 * q + d - 1) + e + 1
  {
    hide Scale, Strip;
    LastDigit(m, q, d);
    StripScaled(m, e, 0);
    ScalePositive(m, e);
    StripStops(m, e);
  }

  lemma LastDigit(m: nat, q: nat, d: nat)
    requires d <= 9 && m == 10 * q + d
    ensures m / 10 == q && m % 10 == d
  {
  }

  lemma StripStops(m: nat, e: nat)
    requires m % 10 != 0 && e <= 9
    ensures Strip(m, e) == (m, e)
  {
  }

  /** An amount with nine zeros or more is stored as ten times what is left without nine of them;
      no amount as zero. */
  lemma RoundAmountFormat(n: nat)
    ensures Compressed(n * 1000000000) == 10 * n
  {
    if n > 0 {
      NineZeros(n);
      StripScaled(n, 9, 0);
      hide Scale;
      assert Strip(n, 9) == (n, 9);
    }
  }

  lemma NineZeros(n: nat)
    ensures Scale(n, 9) == n * 1000000000
  {
    assert Scale(n, 0) == n;
    assert Scale(n, 2) == 100 * n;
    assert Scale(n, 4) == 10000 * n;
    assert Scale(n, 6) == 1000000 * n;
    assert Scale(n, 8) == 100000000 * n;
  }

  // ----- scripts

  /** Payments to a key hash and to a script hash. */
  lemma KeyHashFormat(curve: Curve, h: seq<Byte>)
    requires |h| == 20
    ensures CompressedScript(curve, [0x76, 0xa9, 0x14] + h + [0x88, 0xac]) == [0] + h
    ensures CompressedScript(curve, [0xa9, 0x14] + h + [0x87]) == [1] + h
  {
    var s, t: seq<Byte> := [0x76, 0xa9, 0x14] + h + [0x88, 0xac], [0xa9, 0x14] + h + [0x87];
    assert s[3..23] == h && t[2..22] == h;
  }

  /** Payments to a key, compressed or not. */
  lemma KeyFormat(curve: Curve, x: seq<Byte>, y: seq<Byte>, parity: Byte)
    requires |x| == |y| == 32 && (parity == 2 || parity == 3)
    requires curve.valid([parity] + x) && curve.valid([4] + x + y)
    ensures CompressedScript(curve, [0x21, parity] + x + [0xac]) == [parity] + x
    ensures CompressedScript(curve, [0x41, 4] + x + y + [0xac]) == [if y[31] % 2 == 0 then 4 else 5] + x
  {
    var s, t: seq<Byte> := [0x21, parity] + x + [0xac], [0x41, 4] + x + y + [0xac];
    assert s[1..34] == [parity] + x && s[2..34] == x;
    assert t[1..66] == [4] + x + y && t[2..34] == x && t[65] == y[31];
  }

  /** A script of any other length than the standard ones. */
  lemma OtherFormat(curve: Curve, s: seq<Byte>)
    requires |s| !in {23, 25, 35, 67}
    ensures CompressedScript(curve, s) == Encode(|s| + 6, true) + s
  {
    hide Encode;
    assert !IsStandard(curve, s);
  }

  // ----- coins

  /** A journal entry: twice the height plus one for coinbases, a zero if there is a height, the
      compressed amount, the compressed script.  An unspent entry has no zero. */
  lemma CoinFormat(curve: Curve, c: Coin)
    requires Writable(c)
    ensures var head := Encode(2 * c.height + (if c.isCoinBase then 1 else 0), true);
            var amount := Compressed(c.amount % 0x1_0000_0000_0000_0000) % 0x1_0000_0000_0000_0000;
            var body := Encode(amount, true) + CompressedScript(curve, c.script);
            && EncodeCoin(curve, c) == head + (if c.height > 0 then [0] else []) + body
            && EncodeUtxo(curve, c) == head + body
  {
    hide Compressed, CompressedScript, HeaderCode, Unsigned64;
    HeaderCodeFacts(c);
    AmountBits(c.amount);
    assert Encode(0, true) == [0];
    hide Encode;
  }

  lemma AmountBits(x: int)
    requires -0x8000_0000_0000_0000 <= x < 0x8000_0000_0000_0000
    ensures Unsigned64(x) == x % 0x1_0000_0000_0000_0000
  {
  }

  /** What is spent later stands before what was spent earlier. */
  lemma {:induction false} JournalFormat(curve: Curve, earlier: seq<Coin>, later: seq<Coin>)
    requires AllWritable(earlier + later)
    ensures AllWritable(earlier) && AllWritable(later)
    ensures SerializeEntry(curve, earlier + later) == SerializeEntry(curve, later) + SerializeEntry(curve, earlier)
    ensures |later| == 1 ==> SerializeEntry(curve, later) == EncodeCoin(curve, later[0])
    decreases later
  {
    hide EncodeCoin, Writable;
    var both, m := earlier + later, |later| - 1;
    assert earlier == both[..|earlier|];
    assert forall i :: 0 <= i < |later| ==> later[i] == both[|earlier| + i];
    if later == [] {
      assert both == earlier && SerializeEntry(curve, later) == [];
    } else {
      assert both[..|both| - 1] == earlier + later[..m];
      JournalFormat(curve, earlier, later[..m]);
      assert both[|both| - 1] == later[m];
      assert |later| == 1 ==> later[..m] == [];
      LastFirst(EncodeCoin(curve, later[m]), SerializeEntry(curve, later[..m]), SerializeEntry(curve, earlier));
    }
  }

  lemma LastFirst(a: seq<Byte>, b: seq<Byte>, c: seq<Byte>)
    ensures a + (b + c) == (a + b) + c && a + [] == a
  {
  }
}
