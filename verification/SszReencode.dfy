/** Encoding what was decoded: which accepted buffers are the encoding of the request they decode to. The decoder
    allows a gap before the header and a transactions part that announces no items; nothing else is lost.
 */
module SszReencode {
  import opened Common
  import opened Ssz

  /** What is assumed of the library: encoding undoes decoding. */
  ghost predicate Recodes<T>(c: Codec<T>) {
    forall b {:trigger c.decode(b)} :: c.decode(b).Ok? ==> c.encode(c.decode(b).value) == Ok(b)
  }

  // ---------------------------------------------------------------- the transaction list

  lemma OffsetBytesBack(b: Bytes, n: nat)
    requires |b| == 4 && ReadOffset(b) == n
    ensures WriteOffset(n) == b
  {
    var b0, b1, b2, b3 := b[0] as int, b[1] as int, b[2] as int, b[3] as int;
    assert n / 16777216 == b3 && n / 65536 == b2 + 256 * b3 && n / 256 == b1 + 256 * b2 + 65536 * b3;
    assert b == [b[0], b[1], b[2], b[3]];
  }

  lemma SliceOfSuffix(b: Bytes, n: nat, i: nat, j: nat)
    requires n <= |b| && i <= j <= |b| - n
    ensures b[n..][i..j] == b[n + i..n + j]
  {
  }

  /** What a decoded list says about item `k`. */
  lemma ItemOf(buf: Bytes, xs: seq<Bytes>, k: nat)
    requires ListsItems(buf, xs) && k < |xs|
    ensures 4 * |xs| <= |buf| && TableEntry(buf, 0) == 4 * |xs| && IsItem(buf, |xs|, k, xs[k])
  {
  }

  /** The offsets of a decoded list are contiguous: each is the sum of the lengths before it. */
  lemma {:induction false} OffsetsAreSums(buf: Bytes, xs: seq<Bytes>, k: nat)
    requires ListsItems(buf, xs) && k < |xs|
    ensures 4 * |xs| <= |buf| && TableEntry(buf, k) == 4 * |xs| + SumLengths(xs, k)
    decreases k
  {
    hide TableEntry, ListsItems;
    ItemOf(buf, xs, k);
    if k > 0 {
      OffsetsAreSums(buf, xs, k - 1);
      ItemOf(buf, xs, k - 1);
      ItemAt(xs, k - 1);
      hide SumLengths;
    }
  }

  /** One entry of the table and the rest of it. */
  lemma TableStep(buf: Bytes, xs: seq<Bytes>, i: nat, end: nat, offset: nat, next: nat)
    requires xs != [] && i + 4 <= end <= |buf| && ReadOffset(buf[i..i + 4]) == offset && next == offset + |xs[0]|
    requires buf[i + 4..end] == OffsetTable(xs[1..], next)
    ensures buf[i..end] == OffsetTable(xs, offset)
  {
    OffsetBytesBack(buf[i..i + 4], offset);
    hide WriteOffset, ReadOffset;
    assert buf[i..end] == buf[i..i + 4] + buf[i + 4..end];
  }

  /** From entry `k` on, the table is the one the encoder writes. */
  lemma {:induction false} TableFrom(buf: Bytes, xs: seq<Bytes>, k: nat)
    requires ListsItems(buf, xs) && xs != [] && k <= |xs|
    ensures 4 * |xs| <= |buf| && buf[4 * k..4 * |xs|] == OffsetTable(xs[k..], 4 * |xs| + SumLengths(xs, k))
    decreases |xs| - k
  {
    hide ListsItems, OffsetTable, SumLengths, ReadOffset, Flatten;
    ItemOf(buf, xs, 0);
    if k == |xs| {
      assert OffsetTable(xs[k..], 4 * |xs| + SumLengths(xs, k)) == [];
    } else {
      OffsetsAreSums(buf, xs, k);
      ItemAt(xs, k);
      TableFrom(buf, xs, k + 1);
      assert xs[k..][1..] == xs[k + 1..];
      var n := 4 * |xs|;
      TableStep(buf, xs[k..], 4 * k, n, n + SumLengths(xs, k), n + SumLengths(xs, k + 1));
    }
  }

  /** Item `k` lies where the items before it end. */
  ghost predicate InPlace(rest: Bytes, xs: seq<Bytes>, k: nat)
    requires k < |xs|
  {
    var lo, hi := SumLengths(xs, k), SumLengths(xs, k + 1);
    lo <= hi <= |rest| && rest[lo..hi] == xs[k]
  }

  lemma InPlaceAfterFirst(rest: Bytes, xs: seq<Bytes>, k: nat)
    requires k + 1 < |xs| && InPlace(rest, xs, k + 1) && |xs[0]| <= |rest|
    ensures InPlace(rest[|xs[0]|..], xs[1..], k)
  {
    var n, lo, hi := |xs[0]|, SumLengths(xs[1..], k), SumLengths(xs[1..], k + 1);
    assert SumLengths(xs, k + 1) == n + lo && SumLengths(xs, k + 2) == n + hi;
    hide SumLengths;
    SliceOfSuffix(rest, n, lo, hi);
  }

  lemma {:induction false} EndToEnd(rest: Bytes, xs: seq<Bytes>)
    requires |rest| == SumLengths(xs, |xs|) && forall k | 0 <= k < |xs| :: InPlace(rest, xs, k)
    ensures rest == Flatten(xs)
  {
    if xs == [] {
    } else {
      var n := |xs[0]|;
      assert InPlace(rest, xs, 0) && SumLengths(xs, 1) == n + SumLengths(xs[1..], 0);
      assert rest[0..n] == xs[0];
      hide InPlace;
      forall k | 0 <= k < |xs| - 1
        ensures InPlace(rest[n..], xs[1..], k)
      {
        InPlaceAfterFirst(rest, xs, k);
      }
      EndToEnd(rest[n..], xs[1..]);
      assert rest == rest[0..n] + rest[n..];
    }
  }

  lemma SliceIsInPlace(buf: Bytes, xs: seq<Bytes>, k: nat, n: nat, lo: nat, hi: nat)
    requires k < |xs| && lo == n + SumLengths(xs, k) && hi == n + SumLengths(xs, k + 1)
    requires n <= lo <= hi <= |buf| && xs[k] == buf[lo..hi]
    ensures InPlace(buf[n..], xs, k)
  {
    hide SumLengths;
    SliceOfSuffix(buf, n, lo - n, hi - n);
  }

  lemma ItemIsInPlace(buf: Bytes, xs: seq<Bytes>, k: nat)
    requires ListsItems(buf, xs) && k < |xs|
    ensures 4 * |xs| <= |buf| && InPlace(buf[4 * |xs|..], xs, k)
    ensures k + 1 == |xs| ==> |buf| == 4 * |xs| + SumLengths(xs, |xs|)
  {
    hide SumLengths, TableEntry, ListsItems, InPlace, Flatten;
    ItemOf(buf, xs, k);
    ItemAt(xs, k);
    OffsetsAreSums(buf, xs, k);
    var lo := TableEntry(buf, k);
    SliceIsInPlace(buf, xs, k, 4 * |xs|, lo, lo + |xs[k]|);
  }

  /** A decoded transactions part is the encoding of its items, unless bytes are left behind for no item. */
  lemma ItemsReencode(buf: Bytes, xs: seq<Bytes>)
    requires ListsItems(buf, xs)
    ensures EncodeItems(xs) == buf <==> xs != [] || buf == []
  {
    if xs != [] {
      hide ListsItems, OffsetTable, Flatten, InPlace;
      TableFrom(buf, xs, 0);
      assert xs[0..] == xs && SumLengths(xs, 0) == 0;
      ItemIsInPlace(buf, xs, |xs| - 1);
      forall k | 0 <= k < |xs|
        ensures InPlace(buf[4 * |xs|..], xs, k)
      {
        ItemIsInPlace(buf, xs, k);
      }
      EndToEnd(buf[4 * |xs|..], xs);
    }
  }

  // ---------------------------------------------------------------- the whole request

  lemma {:induction false} RecordsReencode<T>(c: Codec<T>, buf: Bytes, xs: seq<T>)
    requires Recodes(c) && |buf| == 44 * |xs| && AreRecords(c, buf, xs)
    ensures EncodeAll(c, xs) == Ok(buf)
  {
    if xs != [] {
      RecordsFirst(c, buf, xs);
      assert buf[44 * 0..44 * 0 + 44] == buf[..44];
      hide AreRecords;
      RecordsReencode(c, buf[44..], xs[1..]);
      assert buf == buf[..44] + buf[44..];
    }
  }

  lemma ListsShortItems(buf: Bytes, xs: seq<Bytes>)
    requires ListsItems(buf, xs) && |buf| < TWO32
    ensures |xs| < 1073741824 && forall i | 0 <= i < |xs| :: |xs[i]| <= 1073741824
  {
    hide TableEntry;
    forall i | 0 <= i < |xs|
      ensures |xs[i]| <= 1073741824
    {
      ItemOf(buf, xs, i);
    }
  }

  /** Every decoded request can be encoded again, and its parts are the ones that were decoded. */
  lemma DecodedEncodes<M(!new), H(!new), W(!new)>(c: Codecs<M, H, W>, buf: Bytes, r: Request<M, H, W>)
    requires Lawful(c) && Recodes(c.message) && Recodes(c.header) && Recodes(c.withdrawal) && Decode(c, buf) == Ok(r)
    ensures |buf| >= 344 && Encode(c, r).Ok?
    ensures var o1, o3, o4 := ReadOffset(buf[236..240]), ReadOffset(buf[336..340]), ReadOffset(buf[340..344]);
            && 344 <= o1 <= o3 <= o4 <= |buf| && ListsItems(buf[o3..o4], r.transactions)
            && c.message.encode(r.message) == Ok(buf[0..236]) && r.signature == buf[240..336]
            && c.header.encode(r.header) == Ok(buf[o1..o3]) && c.header.size(r.header) == o3 - o1
            && EncodeAll(c.withdrawal, r.withdrawals) == Ok(buf[o4..])
  {
    DecodeIff(c, buf, r);
    var o3, o4 := ReadOffset(buf[336..340]), ReadOffset(buf[340..344]);
    hide ReadOffset, Decode, Encode, ListsItems, AreRecords;
    ListsShortItems(buf[o3..o4], r.transactions);
    RecordsReencode(c.withdrawal, buf[o4..], r.withdrawals);
    EncodeAllOkIff(c.withdrawal, r.withdrawals);
    EncodeAcceptsIff(c, r);
  }

  lemma SameParts(a: Bytes, b: Bytes, t: nat, w: nat)
    requires |a| >= 344 && |b| >= 344 && 344 <= t <= w <= |a| && w <= |b|
    requires a[0..236] == b[0..236] && a[236..240] == b[236..240] && a[240..336] == b[240..336]
    requires a[336..340] == b[336..340] && a[340..344] == b[340..344]
    requires a[344..t] == b[344..t] && a[t..w] == b[t..w] && a[w..] == b[w..]
    ensures a == b
  {
    assert forall x: Bytes | |x| >= 344 && w <= |x| ::
        x == x[0..236] + x[236..240] + x[240..336] + x[336..340] + x[340..344] + x[344..t] + x[t..w] + x[w..];
  }

  lemma EncodedParts<M(!new), H(!new), W(!new)>(c: Codecs<M, H, W>, r: Request<M, H, W>)
    requires Lawful(c) && Encode(c, r).Ok?
    ensures c.message.encode(r.message).Ok? && c.header.encode(r.header).Ok?
    ensures EncodeAll(c.withdrawal, r.withdrawals).Ok?
    ensures var message, header := c.message.encode(r.message).value, c.header.encode(r.header).value;
            var items, records := EncodeItems(r.transactions), EncodeAll(c.withdrawal, r.withdrawals).value;
            && |message| == 236 && c.message.decode(message) == Ok(r.message) && c.header.decode(header) == Ok(r.header)
            && TransactionsOffset(c, r) == 344 + |header| && WithdrawalsOffset(c, r) == 344 + |header| + |items|
            && |Encode(c, r).value| == 344 + |header| + |items| + |records|
  {
    EncodedLayout(c, r);
    assert c.message.size(r.message) == 236;
    hide EncodeItems, EncodeAll, WriteOffset;
  }

  lemma FirstEntry(buf: Bytes, xs: seq<Bytes>, lo: nat, hi: nat)
    requires lo <= hi <= |buf| && ListsItems(buf[lo..hi], xs)
    ensures lo == hi || (lo + 4 <= hi && (xs == [] <==> ReadOffset(buf[lo..lo + 4]) == 0))
  {
    hide ReadOffset, IsItem;
    if lo + 4 <= hi {
      assert buf[lo..hi][0..4] == buf[lo..lo + 4];
    }
  }

  /** A buffer with these offsets that holds the encoded parts is the encoding. */
  lemma PartsAreEncoding<M(!new), H(!new), W(!new)>(c: Codecs<M, H, W>, buf: Bytes, r: Request<M, H, W>, t: nat, w: nat)
    requires Lawful(c) && Encode(c, r).Ok? && t == TransactionsOffset(c, r) && w == WithdrawalsOffset(c, r)
    requires 344 <= t <= w <= |buf|
    requires ReadOffset(buf[236..240]) == 344 && ReadOffset(buf[336..340]) == t && ReadOffset(buf[340..344]) == w
    requires c.message.encode(r.message) == Ok(buf[0..236]) && r.signature == buf[240..336]
    requires c.header.encode(r.header) == Ok(buf[344..t]) && EncodeItems(r.transactions) == buf[t..w]
    requires EncodeAll(c.withdrawal, r.withdrawals) == Ok(buf[w..])
    ensures Encode(c, r) == Ok(buf)
  {
    assert FIXED_SIZE == 344;
    hide *;
    EncodedLayout(c, r);
    OffsetBytesBack(buf[236..240], 344);
    OffsetBytesBack(buf[336..340], t);
    OffsetBytesBack(buf[340..344], w);
    SameParts(Encode(c, r).value, buf, t, w);
  }

  /** Encoding a decoded request gives the same bytes exactly when the header follows the fixed part at once and
      the transactions part is empty or announces an item. */
  lemma ReencodeIff<M(!new), H(!new), W(!new)>(c: Codecs<M, H, W>, buf: Bytes, r: Request<M, H, W>)
    requires Lawful(c) && Recodes(c.message) && Recodes(c.header) && Recodes(c.withdrawal) && Decode(c, buf) == Ok(r)
    ensures |buf| >= 344
    ensures var o1, o3, o4 := ReadOffset(buf[236..240]), ReadOffset(buf[336..340]), ReadOffset(buf[340..344]);
            && o3 <= o4 <= |buf| && (o3 == o4 || o3 + 4 <= o4)
            && (Encode(c, r) == Ok(buf) <==> o1 == 344 && (o3 == o4 || ReadOffset(buf[o3..o3 + 4]) != 0))
  {
    assert FIXED_SIZE == 344 && TWO32 == 4294967296;
    hide *;
    DecodedEncodes(c, buf, r);
    EncodedParts(c, r);
    var o1, o3, o4 := ReadOffset(buf[236..240]), ReadOffset(buf[336..340]), ReadOffset(buf[340..344]);
    ItemsReencode(buf[o3..o4], r.transactions);
    FirstEntry(buf, r.transactions, o3, o4);
    if Encode(c, r) == Ok(buf) {
      EncodedLayout(c, r);
      OffsetRoundTrip(344);
    } else if o1 == 344 && (o3 == o4 || r.transactions != []) {
      PartsAreEncoding(c, buf, r, o3, o4);
    }
  }

  /** The parts of a request with one byte before the header. */
  function WithGap(message: Bytes, signature: Bytes, header: Bytes, items: Bytes, records: Bytes): Bytes {
    message + WriteOffset(345) + signature + WriteOffset(345 + |header|) + WriteOffset(345 + |header| + |items|)
    + [0] + header + items + records
  }

  lemma GapLayout(message: Bytes, signature: Bytes, header: Bytes, items: Bytes, records: Bytes)
    requires |message| == 236 && |signature| == 96
    ensures var buf := WithGap(message, signature, header, items, records);
            var t := 345 + |header|; var w := t + |items|;
            && |buf| == w + |records|
            && buf[0..236] == message && buf[236..240] == WriteOffset(345) && buf[240..336] == signature
            && buf[336..340] == WriteOffset(t) && buf[340..344] == WriteOffset(w)
            && buf[345..t] == header && buf[t..w] == items && buf[w..] == records
  {
    hide WriteOffset;
  }

  lemma EncodedLists<M(!new), H(!new), W(!new)>(c: Codecs<M, H, W>, r: Request<M, H, W>)
    requires Lawful(c) && Encode(c, r).Ok? && WithdrawalsOffset(c, r) < TWO32
    ensures ListsItems(EncodeItems(r.transactions), r.transactions)
    ensures var records := EncodeAll(c.withdrawal, r.withdrawals).value;
            && |records| == 44 * |r.withdrawals| && |r.withdrawals| <= 16
            && AreRecords(c.withdrawal, records, r.withdrawals)
  {
    EncodeAcceptsIff(c, r);
    hide EncodeItems, EncodeAll, ListsItems, AreRecords;
    TransactionsRoundTrip(r.transactions);
    TransactionsDecodeIff(EncodeItems(r.transactions), r.transactions);
    WithdrawalsRoundTrip(c.withdrawal, r.withdrawals);
    WithdrawalsDecodeIff(c.withdrawal, EncodeAll(c.withdrawal, r.withdrawals).value, r.withdrawals);
  }

  lemma GapOffsets(header: nat, items: nat)
    requires 345 + header + items < TWO32
    ensures ReadOffset(WriteOffset(345)) == 345 && ReadOffset(WriteOffset(345 + header)) == 345 + header
    ensures ReadOffset(WriteOffset(345 + header + items)) == 345 + header + items
  {
    hide WriteOffset, ReadOffset;
    OffsetRoundTrip(345);
    OffsetRoundTrip(345 + header);
    OffsetRoundTrip(345 + header + items);
  }

  /** Such buffers exist: one byte between the fixed part and the header is accepted and forgotten. */
  lemma GapIsForgotten<M(!new), H(!new), W(!new)>(c: Codecs<M, H, W>, r: Request<M, H, W>) returns (buf: Bytes)
    requires Lawful(c) && Encode(c, r).Ok? && WithdrawalsOffset(c, r) + 1 < TWO32
    ensures Decode(c, buf) == Ok(r) && Encode(c, r) != Ok(buf)
  {
    hide *;
    EncodedParts(c, r);
    EncodedLists(c, r);
    var message, header := c.message.encode(r.message).value, c.header.encode(r.header).value;
    var items, records := EncodeItems(r.transactions), EncodeAll(c.withdrawal, r.withdrawals).value;
    buf := WithGap(message, r.signature, header, items, records);
    GapLayout(message, r.signature, header, items, records);
    GapOffsets(|header|, |items|);
    DecodeIff(c, buf, r);
  }
}
