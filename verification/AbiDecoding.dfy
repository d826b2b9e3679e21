/**
 The data words of the TransferBatch and PositionsMerge logs. The canonical encoding is the one of
 the "Formal Specification of the Encoding" section of the Solidity Contract ABI Specification:
 a head of 32-byte big-endian words, dynamic arrays behind it as a count and their elements.
 */
module AbiDecoding {
  import opened Outcomes

  type Byte = x: int | 0 <= x < 256

  type Bytes = seq<Byte>

  function Pow256(n: nat): (p: nat)
    ensures p > 0
  {
    if n == 0 then 1 else 256 * Pow256(n - 1)
  }

  /** int.from_bytes(data, "big") */
  function FromBytes(b: Bytes): nat {
    if b == [] then 0 else 256 * FromBytes(b[..|b| - 1]) + b[|b| - 1]
  }

  function ToBytes(v: nat, n: nat): (b: Bytes)
    ensures |b| == n
    decreases n, v
  {
    if n == 0 then [] else ToBytes(v / 256, n - 1) + [v % 256]
  }

  lemma {:induction false} NumberRoundTrip(v: nat, n: nat)
    requires v < Pow256(n)
    ensures FromBytes(ToBytes(v, n)) == v
  {
    if n == 0 {
    } else {
      NumberRoundTrip(v / 256, n - 1);
      var b := ToBytes(v, n);
      assert b[..n - 1] == ToBytes(v / 256, n - 1);
    }
  }

  lemma {:induction false} BytesRoundTrip(b: Bytes)
    ensures FromBytes(b) < Pow256(|b|)
    ensures ToBytes(FromBytes(b), |b|) == b
  {
    if b == [] {
    } else {
      var front, last := b[..|b| - 1], b[|b| - 1];
      BytesRoundTrip(front);
      assert FromBytes(b) / 256 == FromBytes(front) && FromBytes(b) % 256 == last;
    }
  }

  /** 2^256 and 2^160 */
  const WORD_LIMIT: nat := 0x1_0000000000000000_0000000000000000_0000000000000000_0000000000000000
  const ADDRESS_LIMIT: nat := 0x1_00000000_00000000_00000000_00000000_00000000

  lemma {:induction false} PowerAdds(m: nat, n: nat)
    ensures Pow256(m + n) == Pow256(m) * Pow256(n)
  {
    if n == 0 {
    } else {
      PowerAdds(m, n - 1);
      assert 256 * (Pow256(m) * Pow256(n - 1)) == Pow256(m) * (256 * Pow256(n - 1));
    }
  }

  lemma Limits()
    ensures Pow256(32) == WORD_LIMIT && Pow256(20) == ADDRESS_LIMIT
  {
    PowersMultiply(4, 0x1_00000000, 4, 0x1_00000000);
    PowersMultiply(8, 0x1_00000000_00000000, 8, 0x1_00000000_00000000);
    var high := 0x1_00000000_00000000_00000000_00000000;
    PowersMultiply(16, high, 16, high);
    PowersMultiply(16, high, 4, 0x1_00000000);
  }

  lemma PowersMultiply(m: nat, x: nat, n: nat, y: nat)
    requires Pow256(m) == x && Pow256(n) == y
    ensures Pow256(m + n) == x * y
  {
    PowerAdds(m, n);
  }

  predicate Fits(v: nat) {
    v < WORD_LIMIT
  }

  predicate AllFit(vs: seq<nat>) {
    forall i :: 0 <= i < |vs| ==> Fits(vs[i])
  }

  function Word(v: nat): (b: Bytes)
    ensures |b| == 32
  {
    ToBytes(v, 32)
  }

  function Words(vs: seq<nat>): (b: Bytes)
    ensures |b| == 32 * |vs|
  {
    if vs == [] then [] else Words(vs[..|vs| - 1]) + Word(vs[|vs| - 1])
  }

  function WordAt(data: Bytes, at: nat): nat
    requires at + 32 <= |data|
  {
    FromBytes(data[at..at + 32])
  }

  /** The list of n words from offset at. */
  function WordsAt(data: Bytes, at: nat, n: nat): (vs: seq<nat>)
    requires at + 32 * n <= |data|
    ensures |vs| == n
  {
    if n == 0 then [] else WordsAt(data, at, n - 1) + [WordAt(data, at + 32 * (n - 1))]
  }

  /** Inside a sequence of words, word i is read at byte 32 i. */
  lemma {:induction false} WordIsRead(ws: seq<nat>, i: nat)
    requires AllFit(ws) && i < |ws|
    ensures WordAt(Words(ws), 32 * i) == ws[i]
  {
    var front, last := ws[..|ws| - 1], ws[|ws| - 1];
    var data := Words(ws);
    if i == |ws| - 1 {
      assert data[32 * i..32 * i + 32] == Word(last);
      Limits();
      NumberRoundTrip(last, 32);
    } else {
      WordIsRead(front, i);
      assert data[32 * i..32 * i + 32] == Words(front)[32 * i..32 * i + 32];
    }
  }

  /** The data holds these words, one behind the other. */
  ghost predicate Holds(data: Bytes, ws: seq<nat>) {
    |data| == 32 * |ws| && forall i :: 0 <= i < |ws| ==> WordAt(data, 32 * i) == ws[i]
  }

  lemma WrittenWordsHold(ws: seq<nat>)
    requires AllFit(ws)
    ensures Holds(Words(ws), ws)
  {
    forall i | 0 <= i < |ws| ensures WordAt(Words(ws), 32 * i) == ws[i] {
      WordIsRead(ws, i);
    }
  }

  lemma OneMoreWord(data: Bytes, ws: seq<nat>, i: nat, n: nat)
    requires Holds(data, ws) && i + n < |ws|
    ensures WordsAt(data, 32 * i, n + 1) == WordsAt(data, 32 * i, n) + [ws[i + n]]
  {
    assert 32 * i + 32 * n == 32 * (i + n);
    assert WordAt(data, 32 * (i + n)) == ws[i + n];
  }

  lemma {:induction false} WordsAreRead(data: Bytes, ws: seq<nat>, i: nat, n: nat)
    requires Holds(data, ws) && i + n <= |ws|
    ensures WordsAt(data, 32 * i, n) == ws[i..i + n]
  {
    if n == 0 {
    } else {
      WordsAreRead(data, ws, i, n - 1);
      OneMoreWord(data, ws, i, n - 1);
      assert ws[i..i + n] == ws[i..i + n - 1] + [ws[i + n - 1]];
    }
  }

  lemma {:induction false} WordBack(data: Bytes, at: nat)
    requires at + 32 <= |data|
    ensures Fits(WordAt(data, at)) && Word(WordAt(data, at)) == data[at..at + 32]
  {
    Limits();
    BytesRoundTrip(data[at..at + 32]);
  }

  lemma WordsAppend(vs: seq<nat>, v: nat)
    ensures Words(vs + [v]) == Words(vs) + Word(v)
  {
    assert (vs + [v])[..|vs|] == vs;
  }

  lemma {:induction false} RewritingGrows(data: Bytes, vs: seq<nat>, at: nat)
    requires at + 32 <= |data| && AllFit(vs) && Words(vs) == data[..at]
    ensures AllFit(vs + [WordAt(data, at)]) && Words(vs + [WordAt(data, at)]) == data[..at + 32]
  {
    WordBack(data, at);
    WordsAppend(vs, WordAt(data, at));
    assert data[..at + 32] == data[..at] + data[at..at + 32];
  }

  /** Whole words survive reading and writing back. */
  lemma {:induction false} WordsAreRewritten(data: Bytes, n: nat)
    requires 32 * n <= |data|
    ensures AllFit(WordsAt(data, 0, n)) && Words(WordsAt(data, 0, n)) == data[..32 * n]
  {
    if n == 0 {
    } else {
      WordsAreRewritten(data, n - 1);
      RewritingGrows(data, WordsAt(data, 0, n - 1), 32 * (n - 1));
    }
  }

  /** Data of whole words is the writing of its words. */
  lemma {:induction false} DataIsWords(data: Bytes) returns (ws: seq<nat>)
    requires |data| % 32 == 0
    ensures AllFit(ws) && data == Words(ws) && Holds(data, ws)
  {
    var n := |data| / 32;
    WordsAreRewritten(data, n);
    ws := WordsAt(data, 0, n);
    assert data[..32 * n] == data;
    WrittenWordsHold(ws);
  }

  // ----- TransferBatch

  datatype Batch = Batch(tokenIds: seq<nat>, amounts: seq<nat>)

  /** Two arrays of one length whose elements and offsets are words. */
  predicate BatchEncodable(b: Batch) {
    |b.tokenIds| == |b.amounts| && AllFit(b.tokenIds) && AllFit(b.amounts) && Fits(96 + 32 * |b.tokenIds|)
  }

  function BatchWords(b: Batch): seq<nat> {
    [64, 96 + 32 * |b.tokenIds|, |b.tokenIds|] + (b.tokenIds + ([|b.amounts|] + b.amounts))
  }

  function EncodeBatch(b: Batch): Bytes {
    Words(BatchWords(b))
  }

  function DecodeBatch(data: Bytes): Option<Batch> {
    if |data| < 128 || |data| % 32 != 0 then None
    else
      var tokenOffset, amountOffset := WordAt(data, 0), WordAt(data, 32);
      if tokenOffset != 64 then None
      else
        var tokenCount := WordAt(data, 64);
        if amountOffset != 96 + tokenCount * 32 || amountOffset + 32 > |data| then None
        else
          var amountCount := WordAt(data, amountOffset);
          if tokenCount != amountCount || amountOffset + 32 + amountCount * 32 != |data| then None
          else Some(Batch(WordsAt(data, 96, tokenCount), WordsAt(data, amountOffset + 32, amountCount)))
  }

  predicate IsBatch(ws: seq<nat>) {
    && |ws| >= 4 && ws[0] == 64 && ws[1] == 96 + 32 * ws[2]
    && |ws| == 4 + 2 * ws[2] && ws[3 + ws[2]] == ws[2]
  }

  lemma BatchHead(data: Bytes, ws: seq<nat>)
    requires Holds(data, ws) && |ws| >= 4
    ensures WordAt(data, 0) == ws[0] && WordAt(data, 32) == ws[1] && WordAt(data, 64) == ws[2]
  {
    assert WordAt(data, 32 * 0) == ws[0] && WordAt(data, 32 * 1) == ws[1] && WordAt(data, 32 * 2) == ws[2];
  }

  lemma {:induction false} BatchArrays(data: Bytes, ws: seq<nat>, n: nat)
    requires Holds(data, ws) && |ws| == 4 + 2 * n
    ensures WordsAt(data, 96, n) == ws[3..3 + n] && WordsAt(data, 128 + 32 * n, n) == ws[4 + n..]
  {
    WordsAreRead(data, ws, 3, n);
    WordsAreRead(data, ws, 4 + n, n);
    assert ws[4 + n..4 + n + n] == ws[4 + n..];
  }

  /** The second count of a batch, where its offset points. */
  lemma BatchCount(data: Bytes, ws: seq<nat>, n: nat)
    requires Holds(data, ws) && 4 + n <= |ws|
    ensures 128 + 32 * n <= |data| && WordAt(data, 96 + 32 * n) == ws[3 + n]
  {
    assert WordAt(data, 32 * (3 + n)) == ws[3 + n];
  }

  /** The decoder on data whose four head words are those of n elements. */
  lemma {:induction false} BatchDecodes(data: Bytes, n: nat)
    requires |data| == 128 + 64 * n
    requires WordAt(data, 0) == 64 && WordAt(data, 32) == 96 + 32 * n && WordAt(data, 64) == n
    requires WordAt(data, 96 + 32 * n) == n
    ensures DecodeBatch(data) == Some(Batch(WordsAt(data, 96, n), WordsAt(data, 128 + 32 * n, n)))
  {
    var at := WordAt(data, 32);
    assert at == 96 + 32 * n && at + 32 == 128 + 32 * n;
    assert WordAt(data, at) == n;
    assert WordsAt(data, at + 32, n) == WordsAt(data, 128 + 32 * n, n);
  }

  lemma {:induction false} BatchIsAccepted(data: Bytes, ws: seq<nat>)
    requires Holds(data, ws) && IsBatch(ws)
    ensures DecodeBatch(data) == Some(Batch(ws[3..3 + ws[2]], ws[4 + ws[2]..]))
  {
    BatchHead(data, ws);
    BatchCount(data, ws, ws[2]);
    BatchArrays(data, ws, ws[2]);
    BatchDecodes(data, ws[2]);
  }

  lemma {:induction false} BatchIsRefused(data: Bytes, ws: seq<nat>)
    requires Holds(data, ws) && !IsBatch(ws)
    ensures DecodeBatch(data).None?
  {
    if |ws| >= 4 {
      BatchHead(data, ws);
      if 4 + ws[2] <= |ws| {
        BatchCount(data, ws, ws[2]);
      }
    }
  }

  /** What DecodeBatch makes of whole words. */
  lemma {:induction false} BatchIsRead(data: Bytes, ws: seq<nat>)
    requires Holds(data, ws)
    ensures DecodeBatch(data) == if IsBatch(ws) then Some(Batch(ws[3..3 + ws[2]], ws[4 + ws[2]..])) else None
  {
    if IsBatch(ws) {
      BatchIsAccepted(data, ws);
    } else {
      BatchIsRefused(data, ws);
    }
  }

  lemma {:induction false} BatchParts(b: Batch)
    requires BatchEncodable(b)
    ensures var ws, n := BatchWords(b), |b.tokenIds|;
            && AllFit(ws) && IsBatch(ws) && ws[2] == n
            && ws[3..3 + n] == b.tokenIds && ws[4 + n..] == b.amounts
  {
    var ws, n := BatchWords(b), |b.tokenIds|;
    assert ws[3..] == b.tokenIds + ([n] + b.amounts);
    assert ws[3..3 + n] == b.tokenIds && ws[3 + n..] == [n] + b.amounts;
  }

  /** Decoding undoes encoding, for arrays of any length the format can count. */
  lemma {:induction false} BatchRoundTrip(b: Batch)
    requires BatchEncodable(b)
    ensures DecodeBatch(EncodeBatch(b)) == Some(b)
  {
    var ws := BatchWords(b);
    BatchParts(b);
    WrittenWordsHold(ws);
    BatchIsRead(Words(ws), ws);
  }

  /** Whatever is accepted is canonical: it re-encodes to itself. */
  lemma {:induction false} BatchIsCanonical(data: Bytes)
    requires DecodeBatch(data).Some?
    ensures BatchEncodable(DecodeBatch(data).value)
    ensures EncodeBatch(DecodeBatch(data).value) == data
  {
    var ws := DataIsWords(data);
    BatchIsRead(data, ws);
    BatchWordsBack(ws);
  }

  lemma BatchWordsBack(ws: seq<nat>)
    requires AllFit(ws) && IsBatch(ws)
    ensures var b := Batch(ws[3..3 + ws[2]], ws[4 + ws[2]..]);
            BatchEncodable(b) && BatchWords(b) == ws
  {
    var n := ws[2];
    var b := Batch(ws[3..3 + n], ws[4 + n..]);
    assert Fits(ws[1]);
    assert ws[..3] == [64, 96 + 32 * n, n];
    assert ws[3 + n..] == [n] + ws[4 + n..];
    assert ws[3..] == ws[3..3 + n] + ws[3 + n..];
    assert ws == ws[..3] + ws[3..];
  }

  /** The decoder accepts exactly the canonical encodings. */
  lemma {:induction false} BatchAcceptsCanonicalOnly(data: Bytes)
    ensures DecodeBatch(data).Some? <==> exists b :: BatchEncodable(b) && data == EncodeBatch(b)
  {
    if DecodeBatch(data).Some? {
      BatchIsCanonical(data);
    }
    forall b | BatchEncodable(b) && data == EncodeBatch(b) ensures DecodeBatch(data).Some? {
      BatchRoundTrip(b);
    }
  }

  // ----- PositionsMerge

  /** A merge; the collateral address is the number its 20 bytes spell. */
  datatype Merge = Merge(collateral: nat, amount: nat, partition: seq<nat>)

  /** A word that is an address. */
  function Address(v: nat): Option<nat> {
    if v < ADDRESS_LIMIT then Some(v) else None
  }

  predicate MergeEncodable(m: Merge) {
    Address(m.collateral).Some? && Fits(m.amount) && AllFit(m.partition) && Fits(|m.partition|)
  }

  function MergeWords(m: Merge): seq<nat> {
    [m.collateral, 96, m.amount, |m.partition|] + m.partition
  }

  function EncodeMerge(m: Merge): Bytes {
    Words(MergeWords(m))
  }

  /** _address_word: twelve zero bytes, then the address. */
  function AddressWord(word: Bytes): Option<nat>
    requires |word| == 32
  {
    if exists i :: 0 <= i < 12 && word[i] != 0 then None else Some(FromBytes(word[12..]))
  }

  function DecodeMerge(data: Bytes): Option<Merge> {
    if |data| < 128 || |data| % 32 != 0 then None
    else
      var collateral := AddressWord(data[..32]);
      if collateral.None? || WordAt(data, 32) != 96 then None
      else
        var count := WordAt(data, 96);
        if |data| != 128 + count * 32 then None
        else Some(Merge(collateral.value, WordAt(data, 64), WordsAt(data, 128, count)))
  }

  lemma {:induction false} NumberSplits(a: Bytes, b: Bytes)
    ensures FromBytes(a + b) == FromBytes(a) * Pow256(|b|) + FromBytes(b)
  {
    if b == [] {
      assert a + b == a;
    } else {
      var front, last := b[..|b| - 1], b[|b| - 1];
      NumberSplits(a, front);
      assert (a + b)[..|a + b| - 1] == a + front;
      assert 256 * (FromBytes(a) * Pow256(|front|)) == FromBytes(a) * (256 * Pow256(|front|));
    }
  }

  lemma {:induction false} ZeroBytes(b: Bytes)
    ensures FromBytes(b) == 0 <==> forall i :: 0 <= i < |b| ==> b[i] == 0
  {
    if b == [] {
    } else {
      ZeroBytes(b[..|b| - 1]);
    }
  }

  lemma {:induction false} PaddedNumber(word: Bytes, k: nat)
    requires |word| == 12 + k
    ensures FromBytes(word) < Pow256(k) <==> forall i :: 0 <= i < 12 ==> word[i] == 0
    ensures FromBytes(word) < Pow256(k) ==> FromBytes(word) == FromBytes(word[12..])
  {
    var padding, address := word[..12], word[12..];
    assert word == padding + address;
    NumberSplits(padding, address);
    ZeroBytes(padding);
    BytesRoundTrip(address);
    PaddedValue(FromBytes(padding), FromBytes(address), Pow256(k));
  }

  lemma PaddedValue(high: nat, low: nat, scale: nat)
    requires low < scale
    ensures high * scale + low < scale <==> high == 0
  {
    if high != 0 {
      assert high * scale == (high - 1) * scale + scale;
    }
  }

  /** The padding is zero exactly when the word is below 256^20, and the address is then the word. */
  lemma {:induction false} AddressIsSmallWord(word: Bytes)
    requires |word| == 32
    ensures AddressWord(word) == Address(FromBytes(word))
  {
    Limits();
    PaddedNumber(word, 20);
  }

  predicate IsMerge(ws: seq<nat>) {
    |ws| >= 4 && Address(ws[0]).Some? && ws[1] == 96 && |ws| == 4 + ws[3]
  }

  lemma {:induction false} MergeHead(data: Bytes, ws: seq<nat>)
    requires Holds(data, ws) && |ws| >= 4
    ensures AddressWord(data[..32]) == Address(ws[0])
    ensures WordAt(data, 32) == ws[1] && WordAt(data, 64) == ws[2] && WordAt(data, 96) == ws[3]
  {
    assert WordAt(data, 32 * 0) == ws[0] && WordAt(data, 32 * 1) == ws[1];
    assert WordAt(data, 32 * 2) == ws[2] && WordAt(data, 32 * 3) == ws[3];
    assert data[0..32] == data[..32];
    AddressIsSmallWord(data[..32]);
  }

  lemma {:induction false} MergeIsRead(data: Bytes, ws: seq<nat>)
    requires Holds(data, ws)
    ensures DecodeMerge(data) == if IsMerge(ws) then Some(Merge(ws[0], ws[2], ws[4..])) else None
  {
    if |ws| >= 4 {
      MergeHead(data, ws);
      if |ws| == 4 + ws[3] {
        WordsAreRead(data, ws, 4, ws[3]);
        assert ws[4..4 + ws[3]] == ws[4..];
      }
    }
  }

  lemma {:induction false} MergeRoundTrip(m: Merge)
    requires MergeEncodable(m)
    ensures DecodeMerge(EncodeMerge(m)) == Some(m)
  {
    var ws := MergeWords(m);
    assert ws[4..] == m.partition;
    WrittenWordsHold(ws);
    MergeIsRead(Words(ws), ws);
  }

  lemma {:induction false} MergeIsCanonical(data: Bytes)
    requires DecodeMerge(data).Some?
    ensures MergeEncodable(DecodeMerge(data).value)
    ensures EncodeMerge(DecodeMerge(data).value) == data
  {
    var ws := DataIsWords(data);
    MergeIsRead(data, ws);
    MergeWordsBack(ws);
  }

  lemma MergeWordsBack(ws: seq<nat>)
    requires AllFit(ws) && IsMerge(ws)
    ensures MergeEncodable(Merge(ws[0], ws[2], ws[4..])) && MergeWords(Merge(ws[0], ws[2], ws[4..])) == ws
  {
    assert ws == [ws[0], ws[1], ws[2], ws[3]] + ws[4..];
  }

  lemma {:induction false} MergeAcceptsCanonicalOnly(data: Bytes)
    ensures DecodeMerge(data).Some? <==> exists m :: MergeEncodable(m) && data == EncodeMerge(m)
  {
    if DecodeMerge(data).Some? {
      MergeIsCanonical(data);
    }
    forall m | MergeEncodable(m) && data == EncodeMerge(m) ensures DecodeMerge(data).Some? {
      MergeRoundTrip(m);
    }
  }
}
