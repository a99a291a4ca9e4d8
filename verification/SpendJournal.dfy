/** The spend journal and the unspent-output entries: how coins are laid out in bytes. */
module SpendJournal {
  import opened Options
  import opened Ledger
  import opened Vlq
  import opened Compression

  // ----- one spent output

  /** The height above one bit that marks coinbase outputs. */
  function HeaderCode(c: Coin): Uint64 { Wrap(Wrap(2 * c.height) + if c.isCoinBase then 1 else 0) }

  /** Coins the code writes: non-negative 32-bit heights, 64-bit amounts, scripts of a
      representable length. */
  predicate Writable(c: Coin) {
    && 0 <= c.height < 0x8000_0000
    && -0x8000_0000_0000_0000 <= c.amount < 0x8000_0000_0000_0000
    && |c.script| + NUM_SPECIAL_SCRIPTS < TWO_64
  }

  /** The bits of a signed 64-bit amount. */
  function Unsigned64(x: int): Uint64
    requires -0x8000_0000_0000_0000 <= x < 0x8000_0000_0000_0000
  {
    if x >= 0 then x else x + TWO_64
  }

  /** A reserved zero follows the header code of every entry with a height. */
  function Reserved(c: Coin): seq<Byte> { if c.height > 0 then Encode(0, true) else [] }

  function EncodeCoin(curve: Curve, c: Coin): seq<Byte>
    requires Writable(c)
  {
    Encode(HeaderCode(c), true) + Reserved(c) + CompressedTxOut(curve, Unsigned64(c.amount), c.script)
  }

  function CoinSize(curve: Curve, c: Coin): nat
    requires Writable(c)
  {
    Size(HeaderCode(c)) + (if c.height > 0 then Size(0) else 0) +
    CompressedTxOutSize(curve, Unsigned64(c.amount), c.script)
  }

  datatype CoinResult = CoinRead(coin: Coin, read: nat) | CoinTruncated

  /** Truncation to a signed 32-bit height. */
  function Signed32(x: nat): int {
    var low := x % 0x1_0000_0000;
    if low < 0x8000_0000 then low else low - 0x1_0000_0000
  }

  function Signed64(x: Uint64): int {
    if x < 0x8000_0000_0000_0000 then x else x - TWO_64
  }

  /** Reads one entry from the front of the data. */
  function DecodeCoin(curve: Curve, bytes: seq<Byte>): CoinResult {
    if bytes == [] then CoinTruncated else
      var (code, read) := Decode(bytes, 0);
      if read >= |bytes| then CoinTruncated else
        var height := Signed32(code / 2);
        var skip := if height > 0 then Decode(bytes[read..], 0).1 else 0;
        if read + skip >= |bytes| then CoinTruncated else
          match DecodeTxOut(curve, bytes[read + skip..])
          case Truncated => CoinTruncated
          case Decoded(amount, script, size) =>
            CoinRead(Coin(Signed64(amount), if script.Some? then script.value else [], height, code % 2 == 1),
                     read + skip + size)
  }

  lemma HeaderCodeFacts(c: Coin)
    requires Writable(c)
    ensures HeaderCode(c) == 2 * c.height + if c.isCoinBase then 1 else 0
    ensures Signed32(HeaderCode(c) / 2) == c.height && (HeaderCode(c) % 2 == 1) == c.isCoinBase
  {
    hide Wrap;
    WrapExact(2 * c.height);
    WrapExact(2 * c.height + if c.isCoinBase then 1 else 0);
  }

  /** The coin that comes back: all but the amount is as written. */
  function Returned(c: Coin): Coin
    requires Writable(c)
  {
    c.(amount := Signed64(LoadedAmount(StoredAmount(Unsigned64(c.amount)))))
  }

  predicate Keeps(c: Coin)
    requires Writable(c)
  {
    Compressible(Unsigned64(c.amount))
  }

  /** A coin comes back as it was exactly when its amount is compressible. */
  lemma ReturnedIff(c: Coin)
    requires Writable(c)
    ensures Returned(c) == c <==> Keeps(c)
  {
    hide Compressible, LoadedAmount, StoredAmount;
    var x := Unsigned64(c.amount);
    AmountRoundTrip(x);
    assert Signed64(x) == c.amount;
    if Signed64(LoadedAmount(StoredAmount(x))) == c.amount { assert LoadedAmount(StoredAmount(x)) == x; }
  }

  /** A decoded entry is what was encoded but for the amount, and fills exactly its computed
      size. */
  lemma CoinRoundTrip(curve: Curve, c: Coin, rest: seq<Byte>)
    requires curve.Sound() && Writable(c)
    ensures |EncodeCoin(curve, c)| == CoinSize(curve, c) > 0
    ensures DecodeCoin(curve, EncodeCoin(curve, c) + rest) == CoinRead(Returned(c), CoinSize(curve, c))
  {
    hide StoredAmount, LoadedAmount, Signed64, Unsigned64, Decode, HeaderCode, DecodeTxOut, CompressedTxOut,
         CompressedTxOutSize, Compressible, Encode, Signed32, EncodeCoin, Reserved;
    HeaderCodeFacts(c);
    TxOutRoundTrip(curve, Unsigned64(c.amount), c.script, rest);
    CoinBytes(curve, c, rest);
  }

  /** An entry has its computed size. */
  lemma CoinFills(curve: Curve, c: Coin)
    requires Writable(c)
    ensures |EncodeCoin(curve, c)| == CoinSize(curve, c) > 0
  {
    hide StoredAmount, Unsigned64, HeaderCode, Encode, CompressedScript, CompressedScriptSize;
    CompressedScriptFills(curve, c.script);
  }

  /** The three parts of an entry as they are met from the front. */
  lemma CoinBytes(curve: Curve, c: Coin, rest: seq<Byte>)
    requires Writable(c)
    ensures var code, out := HeaderCode(c), CompressedTxOut(curve, Unsigned64(c.amount), c.script);
            var bytes, read := EncodeCoin(curve, c) + rest, Size(code);
            var skip := if c.height > 0 then Size(0) else 0;
            && |bytes| == read + skip + |out| + |rest| && Decode(bytes, 0) == (code, read)
            && (c.height > 0 ==> Decode(bytes[read..], 0) == (0, skip)) && bytes[read + skip..] == out + rest
  {
    hide Unsigned64, Decode, HeaderCode, CompressedTxOut, Encode;
    var code, out := HeaderCode(c), CompressedTxOut(curve, Unsigned64(c.amount), c.script);
    var bytes, tail := EncodeCoin(curve, c) + rest, Reserved(c) + out + rest;
    RoundTrip(code, tail);
    RoundTrip(0, out + rest);
    assert bytes == Encode(code, true) + tail by { ReassociateTwice(Encode(code, true), Reserved(c), out, rest); }
    assert bytes[Size(code)..] == tail;
    if c.height > 0 {
      Reassociate(Encode(0, true), out, rest);
      assert bytes[Size(code) + Size(0)..] == tail[Size(0)..];
    } else {
      assert tail == out + rest;
    }
  }

  lemma ReassociateTwice(a: seq<Byte>, b: seq<Byte>, c: seq<Byte>, d: seq<Byte>)
    ensures a + b + c + d == a + (b + c + d)
  {
  }

  // ----- a block's journal entry

  predicate AllWritable(coins: seq<Coin>) {
    forall i :: 0 <= i < |coins| ==> Writable(coins[i])
  }

  /** The entries one after the other, last spent first. */
  function SerializeEntry(curve: Curve, coins: seq<Coin>): seq<Byte>
    requires AllWritable(coins)
  {
    if coins == [] then [] else
      EncodeCoin(curve, coins[|coins| - 1]) + SerializeEntry(curve, coins[..|coins| - 1])
  }

  function EntrySize(curve: Curve, coins: seq<Coin>): nat
    requires AllWritable(coins)
  {
    if coins == [] then 0 else CoinSize(curve, coins[|coins| - 1]) + EntrySize(curve, coins[..|coins| - 1])
  }

  /** Reads `count` entries, the last spent output first. */
  function ReadBack(curve: Curve, bytes: seq<Byte>, count: nat): Option<seq<Coin>>
    decreases count
  {
    if count == 0 then Some([]) else
      match DecodeCoin(curve, bytes)
      case CoinTruncated => None
      case CoinRead(c, read) =>
        if read > |bytes| then None else
          match ReadBack(curve, bytes[read..], count - 1)
          case None => None
          case Some(earlier) => Some(earlier + [c])
  }

  /** The format does not say how many entries there are; the block's inputs do. */
  function DeserializeEntry(curve: Curve, bytes: seq<Byte>, count: nat): Option<seq<Coin>> {
    if bytes == [] then if count != 0 then None else Some([]) else ReadBack(curve, bytes, count)
  }

  /** The coins that come back. */
  function AllReturned(coins: seq<Coin>): (r: seq<Coin>)
    requires AllWritable(coins)
    ensures |r| == |coins|
  {
    if coins == [] then [] else AllReturned(coins[..|coins| - 1]) + [Returned(coins[|coins| - 1])]
  }

  lemma {:induction false} AllReturnedIff(coins: seq<Coin>)
    requires AllWritable(coins)
    ensures AllReturned(coins) == coins <==> forall i :: 0 <= i < |coins| ==> Keeps(coins[i])
  {
    hide Writable, Returned, Keeps;
    if coins != [] {
      var last, init := coins[|coins| - 1], coins[..|coins| - 1];
      AllReturnedIff(init);
      ReturnedIff(last);
      assert init + [last] == coins;
      assert forall i :: 0 <= i < |init| ==> coins[i] == init[i];
      if AllReturned(coins) == coins {
        assert AllReturned(coins)[..|init|] == init && AllReturned(coins)[|init|] == last;
      }
    }
  }

  lemma {:induction false} ReadBackUndoes(curve: Curve, coins: seq<Coin>, rest: seq<Byte>)
    requires curve.Sound() && AllWritable(coins)
    ensures |SerializeEntry(curve, coins)| == EntrySize(curve, coins)
    ensures coins != [] ==> EntrySize(curve, coins) > 0
    ensures ReadBack(curve, SerializeEntry(curve, coins) + rest, |coins|) == Some(AllReturned(coins))
  {
    hide EncodeCoin, DecodeCoin, CoinSize, Writable, SerializeEntry, EntrySize, ReadBack, Returned;
    if coins == [] {
      EntryStep(curve, coins, 0);
      ReadNone(curve, SerializeEntry(curve, coins) + rest);
    } else {
      var last, init := coins[|coins| - 1], coins[..|coins| - 1];
      SplitEntry(curve, coins, rest);
      CoinRoundTrip(curve, last, SerializeEntry(curve, init) + rest);
      ReadBackUndoes(curve, init, rest);
      ReadOne(curve, SerializeEntry(curve, coins) + rest, Returned(last), CoinSize(curve, last), AllReturned(init));
    }
  }

  lemma SplitEntry(curve: Curve, coins: seq<Coin>, rest: seq<Byte>)
    requires curve.Sound() && AllWritable(coins) && coins != []
    ensures var last, init := coins[|coins| - 1], coins[..|coins| - 1];
            var tail, bytes := SerializeEntry(curve, init) + rest, SerializeEntry(curve, coins) + rest;
            && init + [last] == coins && EntrySize(curve, coins) == CoinSize(curve, last) + EntrySize(curve, init)
            && |SerializeEntry(curve, coins)| == CoinSize(curve, last) + |SerializeEntry(curve, init)|
            && CoinSize(curve, last) > 0
            && bytes == EncodeCoin(curve, last) + tail && bytes[CoinSize(curve, last)..] == tail
  {
    hide EncodeCoin, CoinSize, Writable, DecodeCoin, Returned;
    var last, init := coins[|coins| - 1], coins[..|coins| - 1];
    CoinRoundTrip(curve, last, []);
    Reassociate(EncodeCoin(curve, last), SerializeEntry(curve, init), rest);
  }

  lemma Reassociate(a: seq<Byte>, b: seq<Byte>, c: seq<Byte>)
    ensures a + b + c == a + (b + c) && (a + b + c)[|a|..] == b + c
  {
  }

  lemma ReadNone(curve: Curve, bytes: seq<Byte>)
    ensures ReadBack(curve, bytes, 0) == Some([])
  {
  }

  lemma ReadOne(curve: Curve, bytes: seq<Byte>, c: Coin, read: nat, earlier: seq<Coin>)
    requires DecodeCoin(curve, bytes) == CoinRead(c, read) && read <= |bytes|
    requires ReadBack(curve, bytes[read..], |earlier|) == Some(earlier)
    ensures ReadBack(curve, bytes, |earlier| + 1) == Some(earlier + [c])
  {
    hide DecodeCoin;
  }

  /** The spend journal round trip: reading as many entries as were written returns the list,
      in order, exactly when every amount is compressible; otherwise only amounts differ. */
  lemma JournalRoundTrip(curve: Curve, coins: seq<Coin>)
    requires curve.Sound() && AllWritable(coins)
    ensures |SerializeEntry(curve, coins)| == EntrySize(curve, coins)
    ensures var r := DeserializeEntry(curve, SerializeEntry(curve, coins), |coins|);
            && r == Some(AllReturned(coins))
            && (r == Some(coins) <==> forall i :: 0 <= i < |coins| ==> Keeps(coins[i]))
  {
    hide EncodeCoin, DecodeCoin, CoinSize, Writable, Returned, Keeps, ReadBack;
    ReadBackUndoes(curve, coins, []);
    AllReturnedIff(coins);
    assert SerializeEntry(curve, coins) + [] == SerializeEntry(curve, coins);
  }

  // ----- unspent outputs

  function EncodeUtxo(curve: Curve, c: Coin): seq<Byte>
    requires Writable(c)
  {
    Encode(HeaderCode(c), true) + CompressedTxOut(curve, Unsigned64(c.amount), c.script)
  }

  function DecodeUtxo(curve: Curve, bytes: seq<Byte>): Option<Coin> {
    var (code, read) := Decode(bytes, 0);
    if read >= |bytes| then None else
      match DecodeTxOut(curve, bytes[read..])
      case Truncated => None
      case Decoded(amount, script, _) =>
        Some(Coin(Signed64(amount), if script.Some? then script.value else [], Signed32(code / 2), code % 2 == 1))
  }

  lemma UtxoRoundTrip(curve: Curve, c: Coin)
    requires curve.Sound() && Writable(c)
    ensures DecodeUtxo(curve, EncodeUtxo(curve, c)) == Some(Returned(c))
    ensures DecodeUtxo(curve, EncodeUtxo(curve, c)) == Some(c) <==> Keeps(c)
  {
    ReturnedIff(c);
    hide Keeps, StoredAmount, LoadedAmount, Signed64, Unsigned64, Decode, HeaderCode, DecodeTxOut, CompressedTxOut,
         CompressedTxOutSize, Compressible, Encode, Signed32;
    var code, out := HeaderCode(c), CompressedTxOut(curve, Unsigned64(c.amount), c.script);
    HeaderCodeFacts(c);
    TxOutRoundTrip(curve, Unsigned64(c.amount), c.script, []);
    RoundTrip(code, out);
    assert EncodeUtxo(curve, c)[Size(code)..] == out && out + [] == out;
  }

  /** The key of an unspent output: its transaction's hash followed by its index. */
  function OutPointKey(hash: seq<Byte>, index: Uint64): seq<Byte> { hash + Encode(index, true) }

  lemma OutPointKeysAreDistinct(h: seq<Byte>, i: Uint64, g: seq<Byte>, j: Uint64)
    requires |h| == |g| == 32 && OutPointKey(h, i) == OutPointKey(g, j)
    ensures h == g && i == j
  {
    assert OutPointKey(h, i)[..32] == h && OutPointKey(g, j)[..32] == g;
    assert OutPointKey(h, i)[32..] == Encode(i, true) + [] && OutPointKey(g, j)[32..] == Encode(j, true) + [];
    PrefixFree(i, j, [], []);
  }

  // ----- in place

  method Copy(target: array<Byte>, offset: nat, bytes: seq<Byte>)
    requires offset + |bytes| <= target.Length
    modifies target
    ensures Wrote(old(target[..]), target[..], offset, bytes)
  {
    for i := 0 to |bytes|
      invariant Wrote(old(target[..]), target[..], offset, bytes[..i])
    {
      target[offset + i] := bytes[i];
    }
    assert bytes[..|bytes|] == bytes;
  }

  /** Writes the compressed script at the given offset. */
  method PutCompressedScript(curve: Curve, target: array<Byte>, offset: nat, s: seq<Byte>) returns (size: nat)
    requires |s| + NUM_SPECIAL_SCRIPTS < TWO_64 && offset + CompressedScriptSize(curve, s) <= target.Length
    modifies target
    ensures size == CompressedScriptSize(curve, s)
    ensures Wrote(old(target[..]), target[..], offset, CompressedScript(curve, s))
  {
    hide Wrote;
    CompressedScriptFills(curve, s);
    if IsStandard(curve, s) {
      var (kind, payload) := StandardForm(curve, s);
      Copy(target, offset, [kind]);
      ghost var mid := target[..];
      Copy(target, offset + 1, payload);
      WroteBoth(old(target[..]), mid, target[..], offset, [kind], payload);
      size := 1 + |payload|;
    } else {
      var read := Put(target, offset, |s| + NUM_SPECIAL_SCRIPTS);
      ghost var mid := target[..];
      Copy(target, offset + read, s);
      WroteBoth(old(target[..]), mid, target[..], offset, Encode(|s| + NUM_SPECIAL_SCRIPTS, true), s);
      size := read + |s|;
    }
  }

  method PutCompressedTxOut(curve: Curve, target: array<Byte>, offset: nat, amount: Uint64, script: seq<Byte>)
    returns (size: nat)
    requires |script| + NUM_SPECIAL_SCRIPTS < TWO_64
    requires offset + CompressedTxOutSize(curve, amount, script) <= target.Length
    modifies target
    ensures size == CompressedTxOutSize(curve, amount, script)
    ensures Wrote(old(target[..]), target[..], offset, CompressedTxOut(curve, amount, script))
  {
    hide Wrote, CompressedScript, CompressedScriptSize, Encode, Size, StoredAmount, Compressible;
    var a := CompressAmount(amount);
    assert a == StoredAmount(amount) by { StoredIsWrapped(amount); }
    var first := Put(target, offset, a);
    ghost var mid := target[..];
    var second := PutCompressedScript(curve, target, offset + first, script);
    WroteBoth(old(target[..]), mid, target[..], offset, Encode(a, true), CompressedScript(curve, script));
    size := first + second;
  }

  lemma StoredIsWrapped(amount: Uint64)
    ensures StoredAmount(amount) == Wrap(Compressed(amount))
  {
  }

  method PutSpentTxOut(curve: Curve, target: array<Byte>, offset: nat, c: Coin) returns (size: nat)
    requires Writable(c) && offset + CoinSize(curve, c) <= target.Length
    modifies target
    ensures size == CoinSize(curve, c)
    ensures Wrote(old(target[..]), target[..], offset, EncodeCoin(curve, c))
  {
    hide Wrote, CompressedTxOut, CompressedTxOutSize, Encode, Size, HeaderCode, Compressible;
    size := Put(target, offset, HeaderCode(c));
    ghost var code := Encode(HeaderCode(c), true);
    ghost var written := code;
    if c.height > 0 {
      ghost var mid := target[..];
      var one := Put(target, offset + size, 0);
      WroteBoth(old(target[..]), mid, target[..], offset, code, Encode(0, true));
      size := size + one;
      written := code + Encode(0, true);
    }
    assert written == code + Reserved(c);
    ghost var mid := target[..];
    var out := PutCompressedTxOut(curve, target, offset + size, Unsigned64(c.amount), c.script);
    WroteBoth(old(target[..]), mid, target[..], offset, written,
              CompressedTxOut(curve, Unsigned64(c.amount), c.script));
    size := size + out;
  }

  /** Sizes the buffer, then writes the entries back to front. */
  method SerializeSpendJournalEntry(curve: Curve, coins: seq<Coin>) returns (bytes: seq<Byte>)
    requires AllWritable(coins)
    ensures bytes == SerializeEntry(curve, coins)
  {
    hide Wrote, EncodeCoin, CoinSize, Writable, SerializeEntry, EntrySize;
    EntryStep(curve, coins, 0);
    if coins == [] { return []; }
    var size := JournalSize(curve, coins);
    var buffer := new Byte[size](_ => 0);
    ghost var before, done := buffer[..], [];
    var offset, i := 0, |coins|;
    assert coins[..i] == coins;
    WroteNothing(before, 0);
    assert done + SerializeEntry(curve, coins) == SerializeEntry(curve, coins);
    while i > 0
      invariant 0 <= i <= |coins| && offset == |done|
      invariant offset + EntrySize(curve, coins[..i]) == size == buffer.Length
      invariant Wrote(before, buffer[..], 0, done)
      invariant done + SerializeEntry(curve, coins[..i]) == SerializeEntry(curve, coins)
    {
      i := i - 1;
      EntryStep(curve, coins, i);
      ghost var mid, entry := buffer[..], EncodeCoin(curve, coins[i]);
      var n := PutSpentTxOut(curve, buffer, offset, coins[i]);
      WroteBoth(before, mid, buffer[..], 0, done, entry);
      Regroup(done, entry, SerializeEntry(curve, coins[..i]));
      offset := offset + n;
      done := done + entry;
    }
    assert coins[..0] == [] && done + [] == done;
    WroteAll(before, buffer[..], done);
    bytes := buffer[..];
  }

  lemma Regroup(x: seq<Byte>, y: seq<Byte>, z: seq<Byte>)
    ensures x + (y + z) == x + y + z
  {
  }

  /** The entry for the first i + 1 coins starts with coin i. */
  lemma EntryStep(curve: Curve, coins: seq<Coin>, i: nat)
    requires AllWritable(coins) && i <= |coins|
    ensures SerializeEntry(curve, []) == [] && EntrySize(curve, []) == 0
    ensures i < |coins| ==>
              && |EncodeCoin(curve, coins[i])| == CoinSize(curve, coins[i])
              && SerializeEntry(curve, coins[..i + 1]) == EncodeCoin(curve, coins[i]) +
                 SerializeEntry(curve, coins[..i])
              && EntrySize(curve, coins[..i + 1]) == CoinSize(curve, coins[i]) + EntrySize(curve, coins[..i])
  {
    hide EncodeCoin, CoinSize, Writable;
    if i < |coins| {
      CoinFills(curve, coins[i]);
      assert coins[..i + 1][..i] == coins[..i] && coins[..i + 1][i] == coins[i];
    }
  }

  lemma WroteAll(a: seq<Byte>, b: seq<Byte>, x: seq<Byte>)
    requires Wrote(a, b, 0, x) && |x| == |a|
    ensures b == x
  {
    assert forall i :: 0 <= i < |x| ==> b[0 + i] == x[i];
  }

  method JournalSize(curve: Curve, coins: seq<Coin>) returns (size: nat)
    requires AllWritable(coins)
    ensures size == EntrySize(curve, coins)
  {
    hide CoinSize, Writable;
    size := 0;
    for i := 0 to |coins|
      invariant size == EntrySize(curve, coins[..i])
    {
      assert coins[..i + 1][..i] == coins[..i];
      size := size + CoinSize(curve, coins[i]);
    }
    assert coins[..|coins|] == coins;
  }

  /** Reads the entries back, filling the result from its end. */
  method DeserializeSpendJournalEntry(curve: Curve, bytes: seq<Byte>, count: nat) returns (coins: Option<seq<Coin>>)
    ensures coins == DeserializeEntry(curve, bytes, count)
  {
    hide DecodeCoin;
    if bytes == [] {
      return if count != 0 then None else Some([]);
    }
    var stxos := new Coin[count](_ => Coin(0, [], 0, false));
    var offset, left := 0, count;
    assert bytes[0..] == bytes && stxos[left..] == [];
    AppendNothing(ReadBack(curve, bytes, count));
    while left > 0
      invariant 0 <= left <= count == stxos.Length && offset <= |bytes|
      invariant ReadBack(curve, bytes, count) == Append(ReadBack(curve, bytes[offset..], left), stxos[left..])
    {
      match DecodeCoin(curve, bytes[offset..]) {
        case CoinTruncated => return None;
        case CoinRead(c, read) =>
          if offset + read > |bytes| { return None; }
          assert bytes[offset..][read..] == bytes[offset + read..];
          ghost var later := stxos[left..];
          left := left - 1;
          stxos[left] := c;
          assert stxos[left..] == [c] + later;
          AppendOne(ReadBack(curve, bytes[offset + read..], left), c, later);
          offset := offset + read;
      }
    }
    coins := Some(stxos[..]);
    assert [] + stxos[0..] == stxos[..];
  }

  function Append(a: Option<seq<Coin>>, b: seq<Coin>): Option<seq<Coin>> {
    if a.None? then None else Some(a.value + b)
  }

  lemma AppendNothing(a: Option<seq<Coin>>)
    ensures Append(a, []) == a
  {
    if a.Some? { assert a.value + [] == a.value; }
  }

  lemma AppendOne(a: Option<seq<Coin>>, c: Coin, b: seq<Coin>)
    ensures Append(Append(a, [c]), b) == Append(a, [c] + b)
  {
    if a.Some? { assert a.value + [c] + b == a.value + ([c] + b); }
  }
}
