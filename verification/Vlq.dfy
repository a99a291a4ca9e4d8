/** Variable-length quantities: big-endian base 128 with a continuation bit and an offset
    that makes every number's encoding unique. */
module Vlq {
  import opened Ledger

  const TWO_64 := 0x1_0000_0000_0000_0000
  type Uint64 = x: int | 0 <= x < 0x1_0000_0000_0000_0000

  /** The encoding, most significant group first; `last` says that no byte follows. */
  function Encode(n: nat, last: bool): (bytes: seq<Byte>)
    ensures |bytes| == Size(n)
  {
    var low := [n % 128 + if last then 0 else 128];
    if n <= 0x7f then low else Encode(n / 128 - 1, false) + low
  }

  function Size(n: nat): (size: nat)
    ensures size > 0
  {
    if n <= 0x7f then 1 else 1 + Size(n / 128 - 1)
  }

  /** What a 64-bit register keeps. */
  function Wrap(x: int): Uint64 { x % TWO_64 }

  lemma WrapExact(x: int)
    requires 0 <= x < TWO_64
    ensures Wrap(x) == x
  {
  }

  /** Reads groups until one without continuation bit; returns the number and how many
      bytes were read. */
  function Decode(bytes: seq<Byte>, acc: Uint64): (Uint64, nat)
    decreases bytes
  {
    if bytes == [] then (acc, 0) else
      var n := Wrap(acc * 128 + bytes[0] % 128);
      if bytes[0] < 128 then (n, 1) else
        var (result, size) := Decode(bytes[1..], Wrap(n + 1));
        (result, size + 1)
  }

  lemma DecodeContinued(low: Byte, rest: seq<Byte>, acc: Uint64, n: nat)
    requires low >= 128 && n == acc * 128 + low % 128 && n + 1 < TWO_64
    ensures Decode([low] + rest, acc) == (Decode(rest, n + 1).0, Decode(rest, n + 1).1 + 1)
  {
    hide Wrap;
    WrapExact(n);
    WrapExact(n + 1);
    assert ([low] + rest)[1..] == rest;
  }

  lemma DecodeLast(low: Byte, rest: seq<Byte>, acc: Uint64, n: nat)
    requires low < 128 && n == acc * 128 + low && n < TWO_64
    ensures Decode([low] + rest, acc) == (n, 1)
  {
    hide Wrap;
    WrapExact(n);
  }

  lemma {:induction false} DecodePrefix(n: nat, rest: seq<Byte>)
    requires n + 1 < TWO_64
    ensures Decode(Encode(n, false) + rest, 0) == (Decode(rest, n + 1).0, Decode(rest, n + 1).1 + Size(n))
  {
    hide Decode;
    var low: Byte := n % 128 + 128;
    if n <= 0x7f {
      DecodeContinued(low, rest, 0, n);
    } else {
      DecodePrefix(n / 128 - 1, [low] + rest);
      assert Encode(n, false) + rest == Encode(n / 128 - 1, false) + ([low] + rest);
      DecodeContinued(low, rest, n / 128, n);
    }
  }

  /** Decoding undoes encoding for every 64-bit number, whatever follows. */
  lemma RoundTrip(n: Uint64, rest: seq<Byte>)
    ensures Decode(Encode(n, true) + rest, 0) == (n, Size(n))
  {
    hide Decode;
    var low: Byte := n % 128;
    if n <= 0x7f {
      DecodeLast(low, rest, 0, n);
    } else {
      DecodePrefix(n / 128 - 1, [low] + rest);
      assert Encode(n, true) + rest == Encode(n / 128 - 1, false) + ([low] + rest);
      DecodeLast(low, rest, n / 128, n);
    }
  }

  /** No encoding is a prefix of another: the encoded number and what follows it can be
      told apart. */
  lemma PrefixFree(m: Uint64, n: Uint64, x: seq<Byte>, y: seq<Byte>)
    requires Encode(m, true) + x == Encode(n, true) + y
    ensures m == n && x == y
  {
    RoundTrip(m, x);
    RoundTrip(n, y);
    assert x == (Encode(m, true) + x)[Size(m)..];
    assert y == (Encode(n, true) + y)[Size(n)..];
  }

  /** All bytes but the last carry the continuation bit. */
  predicate Continued(bytes: seq<Byte>) {
    forall i :: 0 <= i < |bytes| ==> bytes[i] >= 128
  }

  /** The number a terminated byte string stands for, without any bound. */
  function ValueOf(bytes: seq<Byte>): nat {
    if bytes == [] then 0 else
      var n := |bytes| - 1;
      (if n == 0 then 0 else ValueOf(bytes[..n]) + 1) * 128 + bytes[n] % 128
  }

  /** Every terminated byte string is the encoding of exactly one number. */
  lemma {:induction false} EveryStringIsAnEncoding(bytes: seq<Byte>, last: bool)
    requires bytes != [] && Continued(bytes[..|bytes| - 1]) && (bytes[|bytes| - 1] < 128) == last
    ensures Encode(ValueOf(bytes), last) == bytes
  {
    var n := |bytes| - 1;
    if n > 0 {
      EveryStringIsAnEncoding(bytes[..n], false);
      assert ValueOf(bytes) / 128 - 1 == ValueOf(bytes[..n]);
    }
    assert bytes == bytes[..n] + [bytes[n]];
  }

  // ----- in place

  /** The encoding, least significant group first, as it is produced. */
  function Groups(n: nat, last: bool): (bytes: seq<Byte>) {
    [n % 128 + if last then 0 else 128] + if n <= 0x7f then [] else Groups(n / 128 - 1, false)
  }

  function Reversed(bytes: seq<Byte>): (r: seq<Byte>)
    ensures |r| == |bytes|
    ensures forall i :: 0 <= i < |r| ==> r[i] == bytes[|bytes| - 1 - i]
  {
    if bytes == [] then [] else Reversed(bytes[1..]) + [bytes[0]]
  }

  lemma {:induction false} EncodeReverses(n: nat, last: bool)
    ensures Encode(n, last) == Reversed(Groups(n, last))
  {
    if n > 0x7f {
      EncodeReverses(n / 128 - 1, false);
    }
    assert Groups(n, last)[1..] == if n <= 0x7f then [] else Groups(n / 128 - 1, false);
  }

  /** `after` is `before` with the bytes written at the given offset. */
  predicate Wrote(before: seq<Byte>, after: seq<Byte>, offset: nat, bytes: seq<Byte>) {
    && |after| == |before| && offset + |bytes| <= |before|
    && (forall i :: 0 <= i < offset ==> after[i] == before[i])
    && (forall i :: 0 <= i < |bytes| ==> after[offset + i] == bytes[i])
    && (forall i :: offset + |bytes| <= i < |before| ==> after[i] == before[i])
  }

  lemma WroteBoth(a: seq<Byte>, b: seq<Byte>, c: seq<Byte>, offset: nat, x: seq<Byte>, y: seq<Byte>)
    requires Wrote(a, b, offset, x) && Wrote(b, c, offset + |x|, y)
    ensures Wrote(a, c, offset, x + y)
  {
    forall i | 0 <= i < |x + y|
      ensures c[offset + i] == (x + y)[i]
    {
      if i < |x| {
        assert c[offset + i] == b[offset + i];
      } else {
        assert c[offset + |x| + (i - |x|)] == y[i - |x|];
      }
    }
  }

  method PutByte(target: array<Byte>, i: nat, b: Byte)
    requires i < target.Length
    modifies target
    ensures Wrote(old(target[..]), target[..], i, [b])
  {
    target[i] := b;
  }

  method SerializeSize(n: Uint64) returns (size: nat)
    ensures size == Size(n)
  {
    size := 1;
    var m := n;
    while m > 0x7f
      invariant size + Size(m) == Size(n) + 1
    {
      m := m / 128 - 1;
      size := size + 1;
    }
  }

  /** Writes the encoding at the given offset: groups least significant first, then
      reversed in place. */
  method Put(target: array<Byte>, offset: nat, n: Uint64) returns (size: nat)
    requires offset + Size(n) <= target.Length
    modifies target
    ensures size == Size(n) && Wrote(old(target[..]), target[..], offset, Encode(n, true))
  {
    hide Groups, Encode;
    EncodeReverses(n, true);
    size := PutGroups(target, offset, n);
    assert target[offset..offset + size] == Groups(n, true);
    ReverseInPlace(target, offset, size);
  }

  method PutGroups(target: array<Byte>, offset: nat, n: Uint64) returns (size: nat)
    requires offset + Size(n) <= target.Length
    modifies target
    ensures size == |Groups(n, true)| == Size(n) && Wrote(old(target[..]), target[..], offset, Groups(n, true))
  {
    hide Wrote, Groups;
    var m, k := n, 0;
    ghost var before, done: seq<Byte> := target[..], [];
    WroteNothing(before, offset);
    GroupsStep(n, true, done);
    while m > 0x7f
      invariant k == |done| && k + Size(m) == Size(n)
      invariant Groups(n, true) == done + Groups(m, k == 0)
      invariant Wrote(before, target[..], offset, done)
    {
      var b: Byte := m % 128 + if k == 0 then 0 else 128;
      ghost var mid := target[..];
      PutByte(target, offset + k, b);
      WroteBoth(before, mid, target[..], offset, done, [b]);
      GroupsStep(m, k == 0, done);
      m, k, done := m / 128 - 1, k + 1, done + [b];
    }
    GroupsStep(m, k == 0, done);
    ghost var mid := target[..];
    var top: Byte := m % 128 + if k == 0 then 0 else 128;
    PutByte(target, offset + k, top);
    WroteBoth(before, mid, target[..], offset, done, [top]);
    size := k + 1;
  }

  lemma WroteNothing(a: seq<Byte>, offset: nat)
    requires offset <= |a|
    ensures Wrote(a, a, offset, [])
  {
  }

  lemma GroupsStep(m: nat, last: bool, done: seq<Byte>)
    ensures [] + Groups(m, last) == Groups(m, last)
    ensures var b: Byte := m % 128 + if last then 0 else 128;
            done + Groups(m, last) == if m <= 0x7f then done + [b] else done + [b] + Groups(m / 128 - 1, false)
  {
    var b: Byte := m % 128 + if last then 0 else 128;
    if m <= 0x7f {
      assert Groups(m, last) == [b];
    } else {
      assert done + ([b] + Groups(m / 128 - 1, false)) == done + [b] + Groups(m / 128 - 1, false);
    }
  }

  method ReverseInPlace(target: array<Byte>, offset: nat, n: nat)
    requires offset + n <= target.Length
    modifies target
    ensures Wrote(old(target[..]), target[..], offset, Reversed(old(target[offset..offset + n])))
  {
    ghost var before := target[..];
    var i, j := offset, offset + n;
    ghost var mirror := offset + n - 1 + offset;
    while i + 1 < j
      invariant offset <= i <= j <= offset + n && i + j == offset + n + offset
      invariant forall k :: offset <= k < i || j <= k < offset + n ==> target[k] == before[mirror - k]
      invariant forall k :: 0 <= k < target.Length && (k < offset || i <= k < j || offset + n <= k) ==>
                target[k] == before[k]
    {
      target[i], target[j - 1] := target[j - 1], target[i];
      i, j := i + 1, j - 1;
    }
  }

  method Deserialize(bytes: seq<Byte>) returns (n: Uint64, size: nat)
    ensures (n, size) == Decode(bytes, 0)
    ensures size <= |bytes|
  {
    n, size := 0, 0;
    while size < |bytes|
      invariant 0 <= size <= |bytes|
      invariant Decode(bytes, 0) == (Decode(bytes[size..], n).0, Decode(bytes[size..], n).1 + size)
    {
      var val := bytes[size];
      assert bytes[size..][1..] == bytes[size + 1..];
      n := Wrap(n * 128 + val % 128);
      size := size + 1;
      if val < 128 { return; }
      n := Wrap(n + 1);
    }
  }
}
