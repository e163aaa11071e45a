/** The SSZ codec of SubmitBlockRequestV2Optimistic: a 344-byte fixed part holding three offsets, then
    the payload header, the transaction list (itself an offset table and the transactions) and the
    withdrawals. The bid trace, header and withdrawal codecs of the library are parameters.
    WriteOffset, ReadOffset, DecodeDynamicLength, UnmarshalDynamic and DivideInt2 follow fastssz.
 */
module Ssz {
  import opened Common

  type Bytes = seq<byte>
  type Signature = s: Bytes | |s| == 96 witness seq(96, _ => 0)

  const TWO32 := 0x1_0000_0000
  const MAX_TRANSACTIONS := 1073741824
  const MAX_TRANSACTION_BYTES := 1073741824
  const MAX_WITHDRAWALS := 16
  const FIXED_SIZE := 344
  const WITHDRAWAL_SIZE := 44

  datatype SszError = ErrSize | ErrOffset | ErrInvalidVariableOffset | ErrBytesLength | ErrListTooBig | ErrInner

  /** A library codec: `size` is SizeSSZ, and encoding may refuse a value. */
  datatype Codec<!T> = Codec(encode: T -> Result<Bytes, SszError>, decode: Bytes -> Result<T, SszError>, size: T -> nat)

  datatype Codecs<!M, !H, !W> = Codecs(message: Codec<M>, header: Codec<H>, withdrawal: Codec<W>)

  datatype Request<M, H, W> = Request(
    message: M, header: H, signature: Signature, transactions: seq<Bytes>, withdrawals: seq<W>)

  /** What is assumed of the library: decoding undoes encoding, and SizeSSZ is the encoded length. */
  ghost predicate Inverts<T(!new)>(c: Codec<T>) {
    forall x {:trigger c.encode(x)} :: c.encode(x).Ok? ==>
      c.decode(c.encode(x).value) == Ok(x) && |c.encode(x).value| == c.size(x)
  }

  ghost predicate Lawful<M(!new), H(!new), W(!new)>(c: Codecs<M, H, W>) {
    && Inverts(c.message) && Inverts(c.header) && Inverts(c.withdrawal)
    && (forall m {:trigger c.message.size(m)} :: c.message.size(m) == 236)
    && (forall w {:trigger c.withdrawal.size(w)} :: c.withdrawal.size(w) == WITHDRAWAL_SIZE)
  }

  // ---------------------------------------------------------------- offsets

  /** Four little-endian bytes; like Go's uint32 conversion it keeps the low 32 bits. */
  function WriteOffset(n: nat): (r: Bytes)
    ensures |r| == 4
  {
    [n % 256, n / 256 % 256, n / 65536 % 256, n / 16777216 % 256]
  }

  function ReadOffset(b: Bytes): (n: nat)
    requires |b| >= 4
    ensures n < TWO32
  {
    b[0] as int + 256 * (b[1] as int) + 65536 * (b[2] as int) + 16777216 * (b[3] as int)
  }

  lemma OffsetRoundTrip(n: nat)
    ensures ReadOffset(WriteOffset(n)) == n % TWO32
  {
    assert n / 256 % 256 == n / 256 - 256 * (n / 65536) by { assert n / 256 / 256 == n / 65536; }
    assert n / 65536 % 256 == n / 65536 - 256 * (n / 16777216) by { assert n / 65536 / 256 == n / 16777216; }
    assert n / 16777216 % 256 == n / 16777216 - 256 * (n / TWO32) by { assert n / 16777216 / 256 == n / TWO32; }
  }

  function Pow256(i: nat): (p: nat)
    ensures p > 0
  {
    if i == 0 then 1 else 256 * Pow256(i - 1)
  }

  /** Byte `i` of an offset counts multiples of 256^i: the least significant byte comes first. */
  lemma OffsetByte(n: nat, i: nat)
    requires i < 4
    ensures WriteOffset(n)[i] == n / Pow256(i) % 256
  {
    assert Pow256(1) == 256 && Pow256(2) == 65536 && Pow256(3) == 16777216;
  }

  lemma ReadPrefix(b: Bytes)
    requires |b| >= 4
    ensures ReadOffset(b) == ReadOffset(b[..4])
  {
  }

  // ---------------------------------------------------------------- the encoding

  function Flatten(xs: seq<Bytes>): Bytes {
    if xs == [] then [] else xs[0] + Flatten(xs[1..])
  }

  function OffsetTable(xs: seq<Bytes>, start: nat): (r: Bytes)
    ensures |r| == 4 * |xs|
  {
    if xs == [] then [] else WriteOffset(start) + OffsetTable(xs[1..], start + |xs[0]|)
  }

  /** A list of variable-size items: the offsets of the items, then the items. */
  function EncodeItems(xs: seq<Bytes>): Bytes {
    OffsetTable(xs, 4 * |xs|) + Flatten(xs)
  }

  function EncodeAll<T>(c: Codec<T>, xs: seq<T>): Result<Bytes, SszError> {
    if xs == [] then Ok([]) else
      var first := c.encode(xs[0]);
      if first.Err? then first else
        var rest := EncodeAll(c, xs[1..]);
        if rest.Err? then rest else Ok(first.value + rest.value)
  }

  predicate AllShort(xs: seq<Bytes>) {
    forall i | 0 <= i < |xs| :: |xs[i]| <= MAX_TRANSACTION_BYTES
  }

  function TransactionsOffset<M, H, W>(c: Codecs<M, H, W>, r: Request<M, H, W>): nat {
    FIXED_SIZE + c.header.size(r.header)
  }

  function WithdrawalsOffset<M, H, W>(c: Codecs<M, H, W>, r: Request<M, H, W>): nat {
    TransactionsOffset(c, r) + |EncodeItems(r.transactions)|
  }

  /** The serialization of a container with three variable-size fields. */
  function Encode<M, H, W>(c: Codecs<M, H, W>, r: Request<M, H, W>): Result<Bytes, SszError> {
    var message := c.message.encode(r.message);
    var header := c.header.encode(r.header);
    var withdrawals := EncodeAll(c.withdrawal, r.withdrawals);
    if message.Err? then message
    else if header.Err? then header
    else if |r.transactions| > MAX_TRANSACTIONS then Err(ErrListTooBig)
    else if !AllShort(r.transactions) then Err(ErrBytesLength)
    else if |r.withdrawals| > MAX_WITHDRAWALS then Err(ErrListTooBig)
    else if withdrawals.Err? then withdrawals
    else Ok(message.value + WriteOffset(FIXED_SIZE) + r.signature
              + WriteOffset(TransactionsOffset(c, r)) + WriteOffset(WithdrawalsOffset(c, r))
              + header.value + EncodeItems(r.transactions) + withdrawals.value)
  }

  /** SizeSSZ, in closed form. */
  function Size<M, H, W>(c: Codecs<M, H, W>, r: Request<M, H, W>): nat {
    FIXED_SIZE + c.header.size(r.header) + ListSize(r.transactions) + WITHDRAWAL_SIZE * |r.withdrawals|
  }

  function ListSize(xs: seq<Bytes>): nat {
    if xs == [] then 0 else 4 + |xs[0]| + ListSize(xs[1..])
  }

  // ---------------------------------------------------------------- the decoder

  /** DecodeDynamicLength: the first offset gives the number of items. A 32-bit offset can never name
      more than the 2^30 items the caller allows, so that check has no case here. */
  function DecodeLength(buf: Bytes): (r: Result<nat, SszError>)
    ensures r.Ok? ==> r.value < MAX_TRANSACTIONS
  {
    if |buf| == 0 then Ok(0)
    else if |buf| < 4 then Err(ErrSize)
    else if ReadOffset(buf) % 4 != 0 then Err(ErrOffset)
    else Ok(ReadOffset(buf) / 4)
  }

  /** UnmarshalDynamic from one item on: `table` is the unread rest of the offset table. */
  function DecodeItems(src: Bytes, table: Bytes, offset: nat, count: nat): Result<seq<Bytes>, SszError>
    decreases count
  {
    if count == 0 then Ok([])
    else if count != 1 && |table| < 4 then Err(ErrSize)
    else
      var end := if count != 1 then ReadOffset(table) else |src|;
      if offset > end || end > |src| then Err(ErrOffset)
      else if end - offset > MAX_TRANSACTION_BYTES then Err(ErrBytesLength)
      else
        var rest := DecodeItems(src, if count != 1 then table[4..] else [], end, count - 1);
        if rest.Err? then rest else Ok([src[offset..end]] + rest.value)
  }

  function DecodeTransactions(buf: Bytes): Result<seq<Bytes>, SszError> {
    var num := DecodeLength(buf);
    if num.Err? then Err(num.error)
    else if num.value == 0 then Ok([])
    else DecodeItems(buf, buf[4..], ReadOffset(buf), num.value)
  }

  function DecodeAll<T>(c: Codec<T>, buf: Bytes, n: nat): Result<seq<T>, SszError>
    requires |buf| == WITHDRAWAL_SIZE * n
    decreases n
  {
    if n == 0 then Ok([]) else
      var first := c.decode(buf[..WITHDRAWAL_SIZE]);
      if first.Err? then Err(first.error) else
        var rest := DecodeAll(c, buf[WITHDRAWAL_SIZE..], n - 1);
        if rest.Err? then Err(rest.error) else Ok([first.value] + rest.value)
  }

  function DecodeWithdrawals<T>(c: Codec<T>, buf: Bytes): Result<seq<T>, SszError> {
    if |buf| % WITHDRAWAL_SIZE != 0 then Err(ErrSize)
    else if |buf| / WITHDRAWAL_SIZE > MAX_WITHDRAWALS then Err(ErrListTooBig)
    else DecodeAll(c, buf, |buf| / WITHDRAWAL_SIZE)
  }

  datatype HeaderPart<M, H> = HeaderPart(message: M, header: H, signature: Signature)

  /** UnmarshalSSZHeaderOnly. */
  function DecodeHeaderOnly<M, H, W>(c: Codecs<M, H, W>, buf: Bytes): Result<HeaderPart<M, H>, SszError> {
    if |buf| < FIXED_SIZE then Err(ErrSize) else
      var message := c.message.decode(buf[0..236]);
      var o1, o3 := ReadOffset(buf[236..240]), ReadOffset(buf[336..340]);
      if message.Err? then Err(message.error)
      else if o1 > |buf| then Err(ErrOffset)
      else if o1 < FIXED_SIZE then Err(ErrInvalidVariableOffset)
      else if o3 > |buf| || o1 > o3 then Err(ErrOffset)
      else
        var header := c.header.decode(buf[o1..o3]);
        if header.Err? then Err(header.error) else Ok(HeaderPart(message.value, header.value, buf[240..336]))
  }

  /** UnmarshalSSZ. */
  function Decode<M, H, W>(c: Codecs<M, H, W>, buf: Bytes): Result<Request<M, H, W>, SszError> {
    if |buf| < FIXED_SIZE then Err(ErrSize) else
      var message := c.message.decode(buf[0..236]);
      var o1, o3, o4 := ReadOffset(buf[236..240]), ReadOffset(buf[336..340]), ReadOffset(buf[340..344]);
      if message.Err? then Err(message.error)
      else if o1 > |buf| then Err(ErrOffset)
      else if o1 < FIXED_SIZE then Err(ErrInvalidVariableOffset)
      else if o3 > |buf| || o1 > o3 then Err(ErrOffset)
      else if o4 > |buf| || o3 > o4 then Err(ErrOffset)
      else
        var header := c.header.decode(buf[o1..o3]);
        if header.Err? then Err(header.error) else
          var transactions := DecodeTransactions(buf[o3..o4]);
          if transactions.Err? then Err(transactions.error) else
            var withdrawals := DecodeWithdrawals(c.withdrawal, buf[o4..]);
            if withdrawals.Err? then Err(withdrawals.error) else
              Ok(Request(message.value, header.value, buf[240..336], transactions.value, withdrawals.value))
  }

  // ---------------------------------------------------------------- sizes

  lemma {:induction false} ListSizeIsEncodedSize(xs: seq<Bytes>)
    ensures |EncodeItems(xs)| == ListSize(xs)
    ensures |Flatten(xs)| == ListSize(xs) - 4 * |xs|
  {
    if xs != [] {
      ListSizeIsEncodedSize(xs[1..]);
    }
  }

  lemma {:induction false} EncodeAllSize<T(!new)>(c: Codec<T>, xs: seq<T>)
    requires Inverts(c) && (forall x {:trigger c.size(x)} :: c.size(x) == WITHDRAWAL_SIZE)
    requires EncodeAll(c, xs).Ok?
    ensures |EncodeAll(c, xs).value| == WITHDRAWAL_SIZE * |xs|
  {
    if xs != [] {
      EncodeAllSize(c, xs[1..]);
      assert c.size(xs[0]) == WITHDRAWAL_SIZE;
    }
  }

  /** The encoding is exactly SizeSSZ bytes long. */
  lemma EncodedLengthIsSize<M(!new), H(!new), W(!new)>(c: Codecs<M, H, W>, r: Request<M, H, W>)
    requires Lawful(c) && Encode(c, r).Ok?
    ensures |Encode(c, r).value| == Size(c, r)
  {
    assert c.message.size(r.message) == 236;
    ListSizeIsEncodedSize(r.transactions);
    EncodeAllSize(c.withdrawal, r.withdrawals);
  }

  // ---------------------------------------------------------------- the transaction list

  function SumLengths(xs: seq<Bytes>, k: nat): nat
    requires k <= |xs|
  {
    if k == 0 then 0 else |xs[0]| + SumLengths(xs[1..], k - 1)
  }

  lemma PrefixSlice(a: Bytes, b: Bytes, i: nat, j: nat)
    requires i <= j <= |a|
    ensures (a + b)[i..j] == a[i..j]
  {
  }

  lemma SuffixSlice(a: Bytes, b: Bytes, i: nat, j: nat)
    requires i <= j <= |b|
    ensures (a + b)[|a| + i..|a| + j] == b[i..j]
  {
  }

  lemma {:induction false} OffsetAt(xs: seq<Bytes>, start: nat, k: nat)
    requires k < |xs|
    ensures OffsetTable(xs, start)[4 * k..4 * k + 4] == WriteOffset(start + SumLengths(xs, k))
  {
    hide WriteOffset;
    var rest := OffsetTable(xs[1..], start + |xs[0]|);
    if k == 0 {
      PrefixSlice(WriteOffset(start), rest, 0, 4);
    } else {
      OffsetAt(xs[1..], start + |xs[0]|, k - 1);
      SuffixSlice(WriteOffset(start), rest, 4 * (k - 1), 4 * (k - 1) + 4);
    }
  }

  lemma {:induction false} ItemAt(xs: seq<Bytes>, k: nat)
    requires k < |xs|
    ensures SumLengths(xs, k + 1) == SumLengths(xs, k) + |xs[k]| <= |Flatten(xs)|
    ensures Flatten(xs)[SumLengths(xs, k)..SumLengths(xs, k + 1)] == xs[k]
  {
    var rest := Flatten(xs[1..]);
    if k == 0 {
      assert SumLengths(xs, 1) == |xs[0]| + SumLengths(xs[1..], 0);
      PrefixSlice(xs[0], rest, 0, |xs[0]|);
    } else {
      ItemAt(xs[1..], k - 1);
      SuffixSlice(xs[0], rest, SumLengths(xs[1..], k - 1), SumLengths(xs[1..], k));
    }
  }

  lemma {:induction false} SumOfAll(xs: seq<Bytes>)
    ensures SumLengths(xs, |xs|) == |Flatten(xs)|
  {
    if xs != [] {
      SumOfAll(xs[1..]);
    }
  }

  /** Item `k` of an encoded list sits between consecutive offsets. */
  lemma EncodedItem(xs: seq<Bytes>, k: nat)
    requires k < |xs|
    ensures var lo := 4 * |xs| + SumLengths(xs, k); var hi := 4 * |xs| + SumLengths(xs, k + 1);
            lo <= hi <= |EncodeItems(xs)| && EncodeItems(xs)[lo..hi] == xs[k]
  {
    ItemAt(xs, k);
    var n := 4 * |xs|;
    var lo, hi := SumLengths(xs, k), SumLengths(xs, k + 1);
    assert EncodeItems(xs)[n + lo..n + hi] == Flatten(xs)[lo..hi];
  }

  lemma EncodedOffset(xs: seq<Bytes>, k: nat)
    requires k < |xs| && |EncodeItems(xs)| < TWO32
    ensures ReadOffset(EncodeItems(xs)[4 * k..4 * k + 4]) == 4 * |xs| + SumLengths(xs, k)
  {
    hide WriteOffset, ReadOffset;
    var start := 4 * |xs| + SumLengths(xs, k);
    assert EncodeItems(xs)[4 * k..4 * k + 4] == WriteOffset(start) by {
      OffsetAt(xs, 4 * |xs|, k);
      PrefixSlice(OffsetTable(xs, 4 * |xs|), Flatten(xs), 4 * k, 4 * k + 4);
    }
    assert start < TWO32 by { EncodedItem(xs, k); }
    OffsetRoundTrip(start);
  }

  /** One turn of the decoder's loop, given what it finds. */
  lemma DecodeItemsStep(src: Bytes, table: Bytes, offset: nat, count: nat, end: nat, rest: seq<Bytes>)
    requires count > 0 && offset <= end <= |src| && end - offset <= MAX_TRANSACTION_BYTES
    requires if count == 1 then end == |src| && rest == []
             else |table| >= 4 && ReadOffset(table) == end && DecodeItems(src, table[4..], end, count - 1) == Ok(rest)
    ensures DecodeItems(src, table, offset, count) == Ok([src[offset..end]] + rest)
  {
    hide ReadOffset;
  }

  /** The unread rest of an offset table, one entry further. */
  lemma NextInTable(src: Bytes, k: nat)
    requires 4 * (k + 2) <= |src|
    ensures src[4 * (k + 1)..][4..] == src[4 * (k + 2)..]
    ensures ReadOffset(src[4 * (k + 1)..]) == ReadOffset(src[4 * (k + 1)..4 * (k + 1) + 4])
  {
    var table := src[4 * (k + 1)..];
    assert table[..4] == src[4 * (k + 1)..4 * (k + 1) + 4];
    hide ReadOffset;
    ReadPrefix(table);
  }

  /** From item `k` on, the decoder's loop returns the remaining transactions. */
  ghost predicate DecodesFrom(xs: seq<Bytes>, k: nat)
    requires k < |xs|
  {
    var src := EncodeItems(xs);
    && 4 * (k + 1) <= |src|
    && DecodeItems(src, src[4 * (k + 1)..], 4 * |xs| + SumLengths(xs, k), |xs| - k) == Ok(xs[k..])
  }

  lemma EncodedSize(xs: seq<Bytes>)
    ensures |EncodeItems(xs)| == 4 * |xs| + SumLengths(xs, |xs|)
  {
    SumOfAll(xs);
  }

  lemma LastItemDecodes(xs: seq<Bytes>, k: nat)
    requires k + 1 == |xs| && |xs[k]| <= MAX_TRANSACTION_BYTES
    ensures DecodesFrom(xs, k)
  {
    hide EncodeItems, DecodeItems, SumLengths;
    EncodedSize(xs);
    EncodedItem(xs, k);
    var src, lo := EncodeItems(xs), 4 * |xs| + SumLengths(xs, k);
    DecodeItemsStep(src, src[4 * (k + 1)..], lo, 1, |src|, []);
    assert xs[k..] == [xs[k]] + [];
  }

  lemma ItemBeforeDecodes(xs: seq<Bytes>, k: nat)
    requires k + 1 < |xs| && |xs[k]| <= MAX_TRANSACTION_BYTES && |EncodeItems(xs)| < TWO32 && DecodesFrom(xs, k + 1)
    ensures DecodesFrom(xs, k)
  {
    hide EncodeItems, DecodeItems, SumLengths, ReadOffset;
    EncodedItem(xs, k);
    EncodedOffset(xs, k + 1);
    var src, lo, hi := EncodeItems(xs), 4 * |xs| + SumLengths(xs, k), 4 * |xs| + SumLengths(xs, k + 1);
    NextInTable(src, k);
    DecodeItemsStep(src, src[4 * (k + 1)..], lo, |xs| - k, hi, xs[k + 1..]);
    assert xs[k..] == [xs[k]] + xs[k + 1..];
  }

  lemma {:induction false} DecodeItemsFrom(xs: seq<Bytes>, k: nat)
    requires k < |xs| && AllShort(xs) && |EncodeItems(xs)| < TWO32
    ensures DecodesFrom(xs, k)
    decreases |xs| - k
  {
    hide DecodesFrom, EncodeItems;
    if k + 1 == |xs| {
      LastItemDecodes(xs, k);
    } else {
      DecodeItemsFrom(xs, k + 1);
      ItemBeforeDecodes(xs, k);
    }
  }

  lemma TransactionsRoundTrip(xs: seq<Bytes>)
    requires |xs| <= MAX_TRANSACTIONS && AllShort(xs) && |EncodeItems(xs)| < TWO32
    ensures DecodeTransactions(EncodeItems(xs)) == Ok(xs)
  {
    hide WriteOffset, ReadOffset;
    if xs != [] {
      var src := EncodeItems(xs);
      EncodedOffset(xs, 0);
      assert src[0..4] == src[..4];
      ReadPrefix(src);
      DecodeItemsFrom(xs, 0);
      assert xs[0..] == xs;
    }
  }

  // ---------------------------------------------------------------- the round trip

  lemma {:induction false} DecodeAllEncoded<T(!new)>(c: Codec<T>, xs: seq<T>)
    requires Inverts(c) && (forall x {:trigger c.size(x)} :: c.size(x) == WITHDRAWAL_SIZE)
    requires EncodeAll(c, xs).Ok?
    ensures |EncodeAll(c, xs).value| == WITHDRAWAL_SIZE * |xs|
    ensures DecodeAll(c, EncodeAll(c, xs).value, |xs|) == Ok(xs)
  {
    EncodeAllSize(c, xs);
    if xs != [] {
      DecodeAllEncoded(c, xs[1..]);
      var first, rest := c.encode(xs[0]).value, EncodeAll(c, xs[1..]).value;
      assert c.size(xs[0]) == WITHDRAWAL_SIZE;
      assert (first + rest)[..WITHDRAWAL_SIZE] == first && (first + rest)[WITHDRAWAL_SIZE..] == rest;
      assert xs == [xs[0]] + xs[1..];
    }
  }

  lemma WithdrawalsRoundTrip<T(!new)>(c: Codec<T>, xs: seq<T>)
    requires Inverts(c) && (forall x {:trigger c.size(x)} :: c.size(x) == WITHDRAWAL_SIZE)
    requires EncodeAll(c, xs).Ok? && |xs| <= MAX_WITHDRAWALS
    ensures DecodeWithdrawals(c, EncodeAll(c, xs).value) == Ok(xs)
  {
    DecodeAllEncoded(c, xs);
  }

  /** Where the decoder finds each part of an encoding. */
  lemma EncodedLayout<M(!new), H(!new), W(!new)>(c: Codecs<M, H, W>, r: Request<M, H, W>)
    requires Lawful(c) && Encode(c, r).Ok?
    ensures var buf := Encode(c, r).value; var t := TransactionsOffset(c, r); var w := WithdrawalsOffset(c, r);
            && FIXED_SIZE <= t <= w <= |buf|
            && buf[0..236] == c.message.encode(r.message).value && buf[236..240] == WriteOffset(FIXED_SIZE)
            && buf[240..336] == r.signature && buf[336..340] == WriteOffset(t) && buf[340..344] == WriteOffset(w)
            && buf[FIXED_SIZE..t] == c.header.encode(r.header).value
            && buf[t..w] == EncodeItems(r.transactions) && buf[w..] == EncodeAll(c.withdrawal, r.withdrawals).value
  {
    hide WriteOffset, EncodeItems, EncodeAll;
    assert c.message.size(r.message) == 236;
  }

  /** The full decoder, given what it finds in each part. */
  lemma DecodeFromParts<M, H, W>(c: Codecs<M, H, W>, buf: Bytes, r: Request<M, H, W>, t: nat, w: nat)
    requires FIXED_SIZE <= t <= w <= |buf|
    requires c.message.decode(buf[0..236]) == Ok(r.message) && buf[240..336] == r.signature
    requires ReadOffset(buf[236..240]) == FIXED_SIZE && ReadOffset(buf[336..340]) == t && ReadOffset(buf[340..344]) == w
    requires c.header.decode(buf[FIXED_SIZE..t]) == Ok(r.header)
    requires DecodeTransactions(buf[t..w]) == Ok(r.transactions)
    requires DecodeWithdrawals(c.withdrawal, buf[w..]) == Ok(r.withdrawals)
    ensures Decode(c, buf) == Ok(r)
  {
  }

  /** Decoding an encoding returns the request, as long as its offsets fit in 32 bits. */
  lemma RoundTrip<M(!new), H(!new), W(!new)>(c: Codecs<M, H, W>, r: Request<M, H, W>)
    requires Lawful(c) && Encode(c, r).Ok? && WithdrawalsOffset(c, r) < TWO32
    ensures Decode(c, Encode(c, r).value) == Ok(r)
  {
    hide WriteOffset, ReadOffset, DecodeItems, DecodeAll;
    var buf, t, w := Encode(c, r).value, TransactionsOffset(c, r), WithdrawalsOffset(c, r);
    EncodedLayout(c, r);
    OffsetsReadBack(buf, t, w);
    assert DecodeTransactions(EncodeItems(r.transactions)) == Ok(r.transactions) by {
      hide DecodeTransactions, EncodeAll;
      TransactionsRoundTrip(r.transactions);
    }
    assert DecodeWithdrawals(c.withdrawal, EncodeAll(c.withdrawal, r.withdrawals).value) == Ok(r.withdrawals) by {
      hide DecodeWithdrawals, EncodeItems;
      WithdrawalsRoundTrip(c.withdrawal, r.withdrawals);
    }
    assert c.message.decode(c.message.encode(r.message).value) == Ok(r.message);
    assert c.header.decode(c.header.encode(r.header).value) == Ok(r.header);
    hide WriteOffset, ReadOffset, Encode, Decode, EncodeItems, EncodeAll, DecodeTransactions, DecodeWithdrawals;
    DecodeFromParts(c, buf, r, t, w);
  }

  lemma OffsetsReadBack(buf: Bytes, t: nat, w: nat)
    requires |buf| >= FIXED_SIZE && t <= w < TWO32
    requires buf[236..240] == WriteOffset(FIXED_SIZE)
    requires buf[336..340] == WriteOffset(t) && buf[340..344] == WriteOffset(w)
    ensures ReadOffset(buf[236..240]) == FIXED_SIZE && ReadOffset(buf[336..340]) == t && ReadOffset(buf[340..344]) == w
  {
    hide WriteOffset, ReadOffset;
    OffsetRoundTrip(FIXED_SIZE);
    OffsetRoundTrip(t);
    OffsetRoundTrip(w);
  }

  lemma DecodedIsShort<M, H, W>(c: Codecs<M, H, W>, buf: Bytes)
    requires Decode(c, buf).Ok?
    ensures var o4 := ReadOffset(buf[340..344]); o4 <= |buf| < o4 + WITHDRAWAL_SIZE * (MAX_WITHDRAWALS + 1)
  {
  }

  /** An offset that wraps around leaves far more than 16 withdrawals' worth of bytes behind it. */
  lemma WrappedOffsetIsRefused<M(!new), H(!new), W(!new)>(c: Codecs<M, H, W>, r: Request<M, H, W>)
    requires Lawful(c) && Encode(c, r).Ok? && WithdrawalsOffset(c, r) >= TWO32
    ensures Decode(c, Encode(c, r).value).Err?
  {
    hide WriteOffset, ReadOffset, Encode, Decode, TransactionsOffset, WithdrawalsOffset, EncodeItems, EncodeAll, Lawful;
    var buf, w := Encode(c, r).value, WithdrawalsOffset(c, r);
    assert FIXED_SIZE <= w <= |buf| && buf[340..344] == WriteOffset(w) by {
      EncodedLayout(c, r);
    }
    OffsetRoundTrip(w);
    assert w % TWO32 <= w - TWO32;
    if Decode(c, buf).Ok? {
      DecodedIsShort(c, buf);
    }
  }

  /** Such requests exist: four transactions of the largest allowed size are accepted, and cannot be decoded. */
  lemma LargestTransactionsWrap<M(!new), H(!new), W(!new)>(c: Codecs<M, H, W>, message: M, header: H)
    returns (r: Request<M, H, W>)
    requires Lawful(c) && c.message.encode(message).Ok? && c.header.encode(header).Ok?
    ensures r.message == message && r.header == header
    ensures Encode(c, r).Ok? && WithdrawalsOffset(c, r) >= TWO32 && Decode(c, Encode(c, r).value).Err?
  {
    var tx: Bytes := seq(MAX_TRANSACTION_BYTES, _ => 0);
    r := Request(message, header, seq(96, _ => 0), [tx, tx, tx, tx], []);
    hide Decode;
    EncodeAcceptsIff(c, r);
    FourItems(tx);
    WrappedOffsetIsRefused(c, r);
  }

  lemma ListSizeCons(x: Bytes, xs: seq<Bytes>)
    ensures ListSize([x] + xs) == 4 + |x| + ListSize(xs)
  {
    assert ([x] + xs)[1..] == xs;
  }

  lemma FourItems(tx: Bytes)
    ensures |EncodeItems([tx, tx, tx, tx])| == 4 * (4 + |tx|)
  {
    hide ListSize;
    ListSizeIsEncodedSize([tx, tx, tx, tx]);
    ListSizeIsEncodedSize([]);
    assert [tx, tx, tx, tx] == [tx] + ([tx] + ([tx] + ([tx] + [])));
    ListSizeCons(tx, []);
    ListSizeCons(tx, [tx] + []);
    ListSizeCons(tx, [tx] + ([tx] + []));
    ListSizeCons(tx, [tx] + ([tx] + ([tx] + [])));
  }

  /** Decoding an accepted encoding returns the request exactly when its offsets fit in 32 bits. */
  lemma RoundTripIff<M(!new), H(!new), W(!new)>(c: Codecs<M, H, W>, r: Request<M, H, W>)
    requires Lawful(c) && Encode(c, r).Ok?
    ensures Decode(c, Encode(c, r).value) == Ok(r) <==> WithdrawalsOffset(c, r) < TWO32
  {
    hide *;
    if WithdrawalsOffset(c, r) < TWO32 {
      RoundTrip(c, r);
    } else {
      WrappedOffsetIsRefused(c, r);
    }
  }

  /** In particular for every accepted request below 4 GiB. */
  lemma RoundTripBelow4GiB<M(!new), H(!new), W(!new)>(c: Codecs<M, H, W>, r: Request<M, H, W>)
    requires Lawful(c) && Encode(c, r).Ok? && Size(c, r) < TWO32
    ensures Decode(c, Encode(c, r).value) == Ok(r)
  {
    EncodedLengthIsSize(c, r);
    EncodedLayout(c, r);
    RoundTrip(c, r);
  }

  /** Encoding refuses exactly what the library refuses, too many or too long transactions, and more
      than 16 withdrawals. */
  lemma EncodeAcceptsIff<M(!new), H(!new), W(!new)>(c: Codecs<M, H, W>, r: Request<M, H, W>)
    ensures Encode(c, r).Ok? <==>
              && c.message.encode(r.message).Ok? && c.header.encode(r.header).Ok?
              && |r.transactions| <= 1073741824
              && (forall i | 0 <= i < |r.transactions| :: |r.transactions[i]| <= 1073741824)
              && |r.withdrawals| <= 16
              && forall i | 0 <= i < |r.withdrawals| :: c.withdrawal.encode(r.withdrawals[i]).Ok?
  {
    EncodeAllOkIff(c.withdrawal, r.withdrawals);
  }

  lemma {:induction false} EncodeAllOkIff<T>(c: Codec<T>, xs: seq<T>)
    ensures EncodeAll(c, xs).Ok? <==> forall i | 0 <= i < |xs| :: c.encode(xs[i]).Ok?
  {
    if xs != [] {
      EncodeAllOkIff(c, xs[1..]);
      assert forall i | 0 < i < |xs| :: xs[i] == xs[1..][i - 1];
      assert forall i | 0 <= i < |xs| - 1 :: xs[1..][i] == xs[i + 1];
    }
  }

  // ---------------------------------------------------------------- what the decoder accepts

  /** Entry `k` of an offset table. */
  function TableEntry(buf: Bytes, k: nat): nat
    requires 4 * k + 4 <= |buf|
  {
    ReadOffset(buf[4 * k..4 * k + 4])
  }

  /** Item `k` of `n` reaches from its own offset to the next one, the last item to the end. */
  ghost predicate IsItem(buf: Bytes, n: nat, k: nat, x: Bytes)
    requires k < n && 4 * n <= |buf|
  {
    var lo := TableEntry(buf, k);
    var hi := if k + 1 < n then TableEntry(buf, k + 1) else |buf|;
    lo <= hi <= |buf| && hi - lo <= 1073741824 && x == buf[lo..hi]
  }

  /** The bytes are a list of these items: nothing, or a table of as many offsets as the first one says and
      the items in the order of their offsets. A first offset of zero also announces no items. */
  ghost predicate ListsItems(buf: Bytes, xs: seq<Bytes>) {
    if buf == [] then xs == [] else
      && |buf| >= 4 && TableEntry(buf, 0) == 4 * |xs| <= |buf|
      && forall k | 0 <= k < |xs| :: IsItem(buf, |xs|, k, xs[k])
  }

  /** The decoder's loop over `count` items, one turn undone. */
  lemma DecodeItemsUnfold(src: Bytes, n: nat, k: nat)
    requires k < n && 4 * n <= |src|
    ensures var now := DecodeItems(src, src[4 * (k + 1)..], TableEntry(src, k), n - k);
            var lo := TableEntry(src, k);
            var hi := if k + 1 < n then TableEntry(src, k + 1) else |src|;
            if !(lo <= hi <= |src|) || hi - lo > 1073741824 then now.Err?
            else if k + 1 == n then now == Ok([src[lo..hi]])
            else
              var next := DecodeItems(src, src[4 * (k + 2)..], hi, n - k - 1);
              if next.Err? then now.Err? else now == Ok([src[lo..hi]] + next.value)
  {
    hide ReadOffset;
    var lo := TableEntry(src, k);
    if k + 1 < n {
      NextInTable(src, k);
    } else if lo <= |src| {
      assert [src[lo..|src|]] + [] == [src[lo..|src|]];
    }
  }

  ghost predicate ItemsFrom(src: Bytes, n: nat, k: nat, xs: seq<Bytes>)
    requires k + |xs| == n && 4 * n <= |src|
  {
    forall j | 0 <= j < |xs| :: IsItem(src, n, k + j, xs[j])
  }

  lemma ItemsFromFirst(src: Bytes, n: nat, k: nat, xs: seq<Bytes>)
    requires k < n && k + |xs| == n && 4 * n <= |src|
    ensures ItemsFrom(src, n, k, xs) <==> IsItem(src, n, k, xs[0]) && ItemsFrom(src, n, k + 1, xs[1..])
  {
    hide IsItem;
    if ItemsFrom(src, n, k, xs) {
      assert IsItem(src, n, k + 0, xs[0]);
      forall j | 0 <= j < |xs| - 1
        ensures IsItem(src, n, k + 1 + j, xs[1..][j])
      {
        assert IsItem(src, n, k + (j + 1), xs[j + 1]);
      }
    }
    if IsItem(src, n, k, xs[0]) && ItemsFrom(src, n, k + 1, xs[1..]) {
      forall j | 0 <= j < |xs|
        ensures IsItem(src, n, k + j, xs[j])
      {
        if j > 0 {
          assert IsItem(src, n, k + 1 + (j - 1), xs[1..][j - 1]);
        }
      }
    }
  }

  lemma {:induction false} DecodeItemsIff(src: Bytes, n: nat, k: nat, xs: seq<Bytes>)
    requires k < n && 4 * n <= |src|
    ensures DecodeItems(src, src[4 * (k + 1)..], TableEntry(src, k), n - k) == Ok(xs) <==>
              k + |xs| == n && ItemsFrom(src, n, k, xs)
    decreases n - k
  {
    hide DecodeItems, ItemsFrom, TableEntry;
    DecodeItemsUnfold(src, n, k);
    if xs != [] {
      if k + |xs| == n {
        ItemsFromFirst(src, n, k, xs);
      }
      assert xs == [xs[0]] + xs[1..];
      if k + 1 < n {
        DecodeItemsIff(src, n, k + 1, xs[1..]);
      } else if |xs| == 1 {
        NoItems(src, n);
        assert xs == [xs[0]] && xs[1..] == [];
      }
    }
  }

  lemma NoItems(src: Bytes, n: nat)
    requires 4 * n <= |src|
    ensures ItemsFrom(src, n, n, [])
  {
  }

  /** A table that does not fit into the bytes is refused. */
  lemma {:induction false} ShortTableIsRefused(src: Bytes, n: nat, k: nat, offset: nat)
    requires k < n && 4 * (k + 1) <= |src| < 4 * n
    ensures DecodeItems(src, src[4 * (k + 1)..], offset, n - k).Err?
    decreases n - k
  {
    if 4 * (k + 2) <= |src| {
      var table := src[4 * (k + 1)..];
      ShortTableIsRefused(src, n, k + 1, ReadOffset(table));
      assert table[4..] == src[4 * (k + 2)..];
    }
  }

  /** The transactions part decodes to `xs` exactly when it is a list of these items. */
  lemma TransactionsDecodeIff(buf: Bytes, xs: seq<Bytes>)
    ensures DecodeTransactions(buf) == Ok(xs) <==> ListsItems(buf, xs)
  {
    hide ReadOffset, DecodeItems, IsItem;
    if |buf| >= 4 {
      assert buf[0..4] == buf[..4];
      ReadPrefix(buf);
      var n := ReadOffset(buf) / 4;
      if n > 0 && ReadOffset(buf) % 4 == 0 {
        if 4 * n <= |buf| {
          DecodeItemsIff(buf, n, 0, xs);
          assert n == |xs| ==> (ItemsFrom(buf, n, 0, xs) <==> ListsItems(buf, xs));
        } else {
          ShortTableIsRefused(buf, n, 0, ReadOffset(buf));
        }
      }
    }
  }

  /** Record `i` of a run of 44-byte records decodes to `x`. */
  ghost predicate IsRecord<T>(c: Codec<T>, buf: Bytes, i: nat, x: T) {
    44 * i + 44 <= |buf| && c.decode(buf[44 * i..44 * i + 44]) == Ok(x)
  }

  ghost predicate AreRecords<T>(c: Codec<T>, buf: Bytes, xs: seq<T>) {
    forall i | 0 <= i < |xs| :: IsRecord(c, buf, i, xs[i])
  }

  lemma NextRecord<T>(c: Codec<T>, buf: Bytes, i: nat, x: T)
    requires |buf| >= 44
    ensures IsRecord(c, buf[44..], i, x) <==> IsRecord(c, buf, i + 1, x)
  {
    if 44 * i + 88 <= |buf| {
      assert buf[44..][44 * i..44 * i + 44] == buf[44 * (i + 1)..44 * (i + 1) + 44];
    }
  }

  lemma RecordsFirst<T>(c: Codec<T>, buf: Bytes, xs: seq<T>)
    requires |buf| >= 44 && xs != []
    ensures AreRecords(c, buf, xs) <==> IsRecord(c, buf, 0, xs[0]) && AreRecords(c, buf[44..], xs[1..])
  {
    hide IsRecord;
    forall i | 0 <= i < |xs| - 1
      ensures IsRecord(c, buf[44..], i, xs[1..][i]) <==> IsRecord(c, buf, i + 1, xs[i + 1])
    {
      NextRecord(c, buf, i, xs[i + 1]);
    }
    if IsRecord(c, buf, 0, xs[0]) && AreRecords(c, buf[44..], xs[1..]) {
      forall i | 0 <= i < |xs|
        ensures IsRecord(c, buf, i, xs[i])
      {
        assert i > 0 ==> IsRecord(c, buf[44..], i - 1, xs[1..][i - 1]);
      }
    }
  }

  lemma {:induction false} DecodeAllIff<T>(c: Codec<T>, buf: Bytes, n: nat, xs: seq<T>)
    requires |buf| == WITHDRAWAL_SIZE * n
    ensures DecodeAll(c, buf, n) == Ok(xs) <==> |xs| == n && AreRecords(c, buf, xs)
    decreases n
  {
    if n > 0 && xs != [] {
      assert buf[44 * 0..44 * 0 + 44] == buf[..44] && xs == [xs[0]] + xs[1..];
      RecordsFirst(c, buf, xs);
      DecodeAllIff(c, buf[44..], n - 1, xs[1..]);
      hide AreRecords;
    }
  }

  /** The withdrawals part decodes exactly when it is at most 16 records of 44 bytes, each one decodable. */
  lemma WithdrawalsDecodeIff<T>(c: Codec<T>, buf: Bytes, xs: seq<T>)
    ensures DecodeWithdrawals(c, buf) == Ok(xs) <==>
              |buf| == 44 * |xs| && |xs| <= 16 && AreRecords(c, buf, xs)
  {
    hide DecodeAll;
    if |buf| % 44 == 0 {
      DecodeAllIff(c, buf, |buf| / 44, xs);
    }
  }

  /** A buffer decodes to this request exactly when it holds its parts: three offsets in order, the bid trace and
      the signature in the fixed part, and the header, transactions and withdrawals between the offsets. */
  lemma DecodeIff<M, H, W>(c: Codecs<M, H, W>, buf: Bytes, r: Request<M, H, W>)
    ensures Decode(c, buf) == Ok(r) <==>
              && |buf| >= 344
              && var o1, o3, o4 := ReadOffset(buf[236..240]), ReadOffset(buf[336..340]), ReadOffset(buf[340..344]);
              && 344 <= o1 <= o3 <= o4 <= |buf|
              && c.message.decode(buf[0..236]) == Ok(r.message) && buf[240..336] == r.signature
              && c.header.decode(buf[o1..o3]) == Ok(r.header) && ListsItems(buf[o3..o4], r.transactions)
              && |buf| - o4 == 44 * |r.withdrawals| && |r.withdrawals| <= 16
              && AreRecords(c.withdrawal, buf[o4..], r.withdrawals)
  {
    if |buf| >= 344 {
      var o3, o4 := ReadOffset(buf[336..340]), ReadOffset(buf[340..344]);
      if o3 <= o4 <= |buf| {
        TransactionsDecodeIff(buf[o3..o4], r.transactions);
        WithdrawalsDecodeIff(c.withdrawal, buf[o4..], r.withdrawals);
      }
    }
    hide ReadOffset, DecodeTransactions, DecodeWithdrawals, ListsItems, AreRecords;
  }

  /** How a buffer is refused for its layout alone. */
  lemma LayoutErrors<M, H, W>(c: Codecs<M, H, W>, buf: Bytes)
    ensures |buf| < 344 ==> Decode(c, buf) == Err(ErrSize)
    ensures |buf| >= 344 && c.message.decode(buf[0..236]).Ok? ==>
              var o1, o3, o4 := ReadOffset(buf[236..240]), ReadOffset(buf[336..340]), ReadOffset(buf[340..344]);
              && (o1 < 344 ==> Decode(c, buf) == Err(ErrInvalidVariableOffset))
              && (o1 >= 344 && !(o1 <= o3 <= o4 <= |buf|) ==> Decode(c, buf) == Err(ErrOffset))
    ensures forall part: Bytes | |part| % 44 != 0 :: DecodeWithdrawals(c.withdrawal, part) == Err(ErrSize)
    ensures forall part: Bytes | |part| % 44 == 0 && |part| > 704 ::
              DecodeWithdrawals(c.withdrawal, part) == Err(ErrListTooBig)
  {
    hide ReadOffset, DecodeTransactions;
  }

  // ---------------------------------------------------------------- the header-only decoder

  /** Whenever the full decoder accepts, the header-only decoder accepts with the same message, header
      and signature, also on just the bytes before the transactions. */
  lemma HeaderOnlyAgrees<M, H, W>(c: Codecs<M, H, W>, buf: Bytes)
    requires Decode(c, buf).Ok?
    ensures var r := Decode(c, buf).value;
            var part := Ok(HeaderPart(r.message, r.header, r.signature));
            var o3 := ReadOffset(buf[336..340]);
            && FIXED_SIZE <= o3 <= |buf|
            && DecodeHeaderOnly(c, buf) == part && DecodeHeaderOnly(c, buf[..o3]) == part
  {
    var o1, o3 := ReadOffset(buf[236..240]), ReadOffset(buf[336..340]);
    var cut := buf[..o3];
    assert cut[0..236] == buf[0..236] && cut[236..240] == buf[236..240] && cut[240..336] == buf[240..336]
        && cut[336..340] == buf[336..340] && cut[o1..o3] == buf[o1..o3];
  }

  /** It accepts exactly the buffers whose fixed part and header are in place, whatever comes after. */
  lemma HeaderOnlyIff<M, H, W>(c: Codecs<M, H, W>, buf: Bytes, part: HeaderPart<M, H>)
    ensures DecodeHeaderOnly(c, buf) == Ok(part) <==>
              && |buf| >= 344
              && var o1, o3 := ReadOffset(buf[236..240]), ReadOffset(buf[336..340]);
              && 344 <= o1 <= o3 <= |buf|
              && c.message.decode(buf[0..236]) == Ok(part.message) && buf[240..336] == part.signature
              && c.header.decode(buf[o1..o3]) == Ok(part.header)
  {
    hide ReadOffset;
  }
}
