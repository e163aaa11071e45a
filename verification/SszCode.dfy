/** The codec as the code runs it: marshalling appends to a buffer with a running offset, unmarshalling
    fills the receiver's fields, both in loops. Each is proved against the encoding and decoding
    functions, so their round trip is the code's.
 */
module SszCode {
  import opened Common
  import opened Ssz

  lemma TailOf<T>(xs: seq<T>, i: nat)
    requires i < |xs|
    ensures xs[i..][0] == xs[i] && xs[i..][1..] == xs[i + 1..]
  {
  }

  /** The offset table of the transaction list. */
  method AppendOffsets(buf: Bytes, xs: seq<Bytes>) returns (dst: Bytes)
    ensures dst == buf + OffsetTable(xs, 4 * |xs|)
  {
    hide WriteOffset;
    dst := buf;
    var offset: nat := 4 * |xs|;
    assert xs[0..] == xs;
    for i := 0 to |xs|
      invariant dst + OffsetTable(xs[i..], offset) == buf + OffsetTable(xs, 4 * |xs|)
    {
      TailOf(xs, i);
      dst := dst + WriteOffset(offset);
      offset := offset + |xs[i]|;
    }
  }

  /** The transactions themselves, refusing one that is too long. */
  method AppendTransactions(buf: Bytes, xs: seq<Bytes>) returns (r: Result<Bytes, SszError>)
    ensures r == if AllShort(xs) then Ok(buf + Flatten(xs)) else Err(ErrBytesLength)
  {
    var dst := buf;
    assert xs[0..] == xs;
    for i := 0 to |xs|
      invariant AllShort(xs[..i])
      invariant dst + Flatten(xs[i..]) == buf + Flatten(xs)
    {
      TailOf(xs, i);
      if |xs[i]| > MAX_TRANSACTION_BYTES {
        assert !AllShort(xs);
        return Err(ErrBytesLength);
      }
      dst := dst + xs[i];
      assert xs[..i + 1] == xs[..i] + [xs[i]];
    }
    assert xs[..|xs|] == xs && dst + Flatten(xs[|xs|..]) == dst;
    r := Ok(dst);
  }

  method AppendWithdrawals<T>(c: Codec<T>, buf: Bytes, xs: seq<T>) returns (r: Result<Bytes, SszError>)
    ensures r == if EncodeAll(c, xs).Ok? then Ok(buf + EncodeAll(c, xs).value) else EncodeAll(c, xs)
  {
    var dst := buf;
    assert xs[0..] == xs;
    for i := 0 to |xs|
      invariant EncodeAll(c, xs[i..]).Err? ==> EncodeAll(c, xs) == EncodeAll(c, xs[i..])
      invariant EncodeAll(c, xs[i..]).Ok? ==> EncodeAll(c, xs).Ok?
      invariant EncodeAll(c, xs[i..]).Ok? ==> dst + EncodeAll(c, xs[i..]).value == buf + EncodeAll(c, xs).value
    {
      TailOf(xs, i);
      var next := c.encode(xs[i]);
      if next.Err? {
        return next;
      }
      dst := dst + next.value;
    }
    assert dst + EncodeAll(c, xs[|xs|..]).value == dst;
    r := Ok(dst);
  }

  /** The loop that advances the offset over the transaction list. */
  method AddListSize(start: nat, xs: seq<Bytes>) returns (offset: nat)
    ensures offset == start + ListSize(xs)
  {
    offset := start;
    assert xs[0..] == xs;
    for i := 0 to |xs|
      invariant offset + ListSize(xs[i..]) == start + ListSize(xs)
    {
      TailOf(xs, i);
      offset := offset + 4;
      offset := offset + |xs[i]|;
    }
  }

  /** UnmarshalDynamic: cuts the items out of the source at consecutive offsets. */
  method UnmarshalDynamic(src: Bytes, length: nat) returns (r: Result<seq<Bytes>, SszError>)
    requires length > 0 ==> |src| >= 4
    ensures r == if length == 0 then Ok([]) else DecodeItems(src, src[4..], ReadOffset(src), length)
  {
    hide ReadOffset;
    if length == 0 {
      return Ok([]);
    }
    ghost var all := DecodeItems(src, src[4..], ReadOffset(src), length);
    var offset: nat, table, left, items: seq<Bytes> := ReadOffset(src), src[4..], length, [];
    EmptyBefore(all);
    while left > 0
      invariant all == Before(items, DecodeItems(src, table, offset, left))
    {
      ghost var before := items;
      var endOffset: nat;
      if left != 1 {
        if |table| < 4 {
          return Err(ErrSize);
        }
        endOffset := ReadOffset(table);
        table := table[4..];
      } else {
        endOffset := |src|;
        table := [];
      }
      if offset > endOffset || endOffset > |src| {
        return Err(ErrOffset);
      }
      if endOffset - offset > MAX_TRANSACTION_BYTES {
        return Err(ErrBytesLength);
      }
      BeforeSplit(before, src[offset..endOffset], DecodeItems(src, table, endOffset, left - 1));
      items := items + [src[offset..endOffset]];
      offset := endOffset;
      left := left - 1;
    }
    assert items + [] == items;
    r := Ok(items);
  }

  /** What is decoded so far, put before the result for the rest. */
  ghost function Before<T>(done: seq<T>, rest: Result<seq<T>, SszError>): Result<seq<T>, SszError> {
    if rest.Err? then rest else Ok(done + rest.value)
  }

  lemma EmptyBefore<T>(rest: Result<seq<T>, SszError>)
    ensures Before([], rest) == rest
  {
    if rest.Ok? {
      assert [] + rest.value == rest.value;
    }
  }

  lemma BeforeSplit<T>(done: seq<T>, x: T, rest: Result<seq<T>, SszError>)
    ensures Before(done, Before([x], rest)) == Before(done + [x], rest)
  {
    if rest.Ok? {
      assert done + ([x] + rest.value) == done + [x] + rest.value;
    }
  }

  lemma DecodeAllStep<T>(c: Codec<T>, buf: Bytes, i: nat, num: nat)
    requires i < num && |buf| == WITHDRAWAL_SIZE * num
    ensures var w := c.decode(buf[i * WITHDRAWAL_SIZE..(i + 1) * WITHDRAWAL_SIZE]);
            DecodeAll(c, buf[WITHDRAWAL_SIZE * i..], num - i) ==
            if w.Err? then Err(w.error)
            else Before([w.value], DecodeAll(c, buf[WITHDRAWAL_SIZE * (i + 1)..], num - i - 1))
  {
    var rest := buf[WITHDRAWAL_SIZE * i..];
    assert rest[..WITHDRAWAL_SIZE] == buf[i * WITHDRAWAL_SIZE..(i + 1) * WITHDRAWAL_SIZE];
    assert rest[WITHDRAWAL_SIZE..] == buf[WITHDRAWAL_SIZE * (i + 1)..];
  }

  method UnmarshalWithdrawals<T>(c: Codec<T>, buf: Bytes) returns (r: Result<seq<T>, SszError>)
    ensures r == DecodeWithdrawals(c, buf)
  {
    if |buf| % WITHDRAWAL_SIZE != 0 {
      return Err(ErrSize);
    }
    var num := |buf| / WITHDRAWAL_SIZE;
    if num > MAX_WITHDRAWALS {
      return Err(ErrListTooBig);
    }
    var ws: seq<T> := [];
    ghost var all := DecodeAll(c, buf, num);
    EmptyBefore(all);
    assert buf[0..] == buf;
    assert DecodeAll(c, [], 0) == Ok([]);
    hide DecodeAll;
    for i := 0 to num
      invariant |buf[WITHDRAWAL_SIZE * i..]| == WITHDRAWAL_SIZE * (num - i)
      invariant all == Before(ws, DecodeAll(c, buf[WITHDRAWAL_SIZE * i..], num - i))
    {
      var w := c.decode(buf[i * WITHDRAWAL_SIZE..(i + 1) * WITHDRAWAL_SIZE]);
      DecodeAllStep(c, buf, i, num);
      if w.Err? {
        return Err(w.error);
      }
      BeforeSplit(ws, w.value, DecodeAll(c, buf[WITHDRAWAL_SIZE * (i + 1)..], num - i - 1));
      ws := ws + [w.value];
    }
    assert ws + [] == ws && buf[WITHDRAWAL_SIZE * num..] == [];
    r := Ok(ws);
  }

  class SubmitBlockRequest<M, H, W> {
    const codecs: Codecs<M, H, W>
    var message: M
    var header: H
    var signature: Signature
    var transactions: seq<Bytes>
    var withdrawals: seq<W>

    function View(): Request<M, H, W>
      reads this
    {
      Request(message, header, signature, transactions, withdrawals)
    }

    constructor (codecs: Codecs<M, H, W>, r: Request<M, H, W>)
      ensures this.codecs == codecs && View() == r
    {
      this.codecs := codecs;
      message, header, signature := r.message, r.header, r.signature;
      transactions, withdrawals := r.transactions, r.withdrawals;
    }

    method SizeSSZ() returns (size: nat)
      ensures size == Size(codecs, View())
    {
      size := FIXED_SIZE;
      size := size + codecs.header.size(header);
      size := AddListSize(size, transactions);
      size := size + |withdrawals| * WITHDRAWAL_SIZE;
    }

    /** Marshalling appends exactly the encoding; on an error nothing is returned. */
    method MarshalSSZTo(buf: Bytes) returns (r: Result<Bytes, SszError>)
      ensures r == match Encode(codecs, View())
                   case Ok(bytes) => Ok(buf + bytes)
                   case Err(e) => Err(e)
    {
      hide WriteOffset, EncodeItems, EncodeAll, ListSize;
      var m := codecs.message.encode(message);
      if m.Err? {
        return m;
      }
      var offset := FIXED_SIZE;
      var dst := buf + m.value;
      dst := dst + WriteOffset(offset);
      offset := offset + codecs.header.size(header);
      dst := dst + signature;
      dst := dst + WriteOffset(offset);
      offset := AddListSize(offset, transactions);
      ListSizeIsEncodedSize(transactions);
      dst := dst + WriteOffset(offset);
      ghost var fixedPart := m.value + WriteOffset(FIXED_SIZE) + signature
                               + WriteOffset(TransactionsOffset(codecs, View()))
                               + WriteOffset(WithdrawalsOffset(codecs, View()));
      assert dst == buf + fixedPart;
      var h := codecs.header.encode(header);
      if h.Err? {
        return h;
      }
      r := AppendVariablePart(dst + h.value);
      if Encode(codecs, View()).Ok? {
        assert buf + fixedPart + h.value + EncodeItems(transactions) + EncodeAll(codecs.withdrawal, withdrawals).value
            == buf + Encode(codecs, View()).value;
      }
    }

    /** The transaction list and the withdrawals. */
    method AppendVariablePart(buf: Bytes) returns (r: Result<Bytes, SszError>)
      ensures r == if |transactions| > MAX_TRANSACTIONS then Err(ErrListTooBig)
                   else if !AllShort(transactions) then Err(ErrBytesLength)
                   else if |withdrawals| > MAX_WITHDRAWALS then Err(ErrListTooBig)
                   else if EncodeAll(codecs.withdrawal, withdrawals).Err? then EncodeAll(codecs.withdrawal, withdrawals)
                   else Ok(buf + EncodeItems(transactions) + EncodeAll(codecs.withdrawal, withdrawals).value)
    {
      if |transactions| > MAX_TRANSACTIONS {
        return Err(ErrListTooBig);
      }
      var dst := AppendOffsets(buf, transactions);
      r := AppendTransactions(dst, transactions);
      if r.Err? {
        return;
      }
      assert r.value == buf + EncodeItems(transactions);
      if |withdrawals| > MAX_WITHDRAWALS {
        return Err(ErrListTooBig);
      }
      r := AppendWithdrawals(codecs.withdrawal, r.value, withdrawals);
    }

    /** On success the receiver holds the decoded request; fields read before an error keep what was read. */
    method UnmarshalSSZ(buf: Bytes) returns (err: Option<SszError>)
      modifies this
      ensures match Decode(codecs, buf)
              case Ok(r) => err == None && View() == r
              case Err(e) => err == Some(e)
    {
      hide ReadOffset, DecodeItems, DecodeAll;
      if |buf| < FIXED_SIZE {
        return Some(ErrSize);
      }
      var m := codecs.message.decode(buf[0..236]);
      if m.Err? {
        return Some(m.error);
      }
      message := m.value;
      var o1 := ReadOffset(buf[236..240]);
      if o1 > |buf| {
        return Some(ErrOffset);
      }
      if o1 < FIXED_SIZE {
        return Some(ErrInvalidVariableOffset);
      }
      signature := buf[240..336];
      var o3 := ReadOffset(buf[336..340]);
      if o3 > |buf| || o1 > o3 {
        return Some(ErrOffset);
      }
      var o4 := ReadOffset(buf[340..344]);
      if o4 > |buf| || o3 > o4 {
        return Some(ErrOffset);
      }
      var h := codecs.header.decode(buf[o1..o3]);
      if h.Err? {
        return Some(h.error);
      }
      header := h.value;
      var num := DecodeLength(buf[o3..o4]);
      if num.Err? {
        return Some(num.error);
      }
      var txs := UnmarshalDynamic(buf[o3..o4], num.value);
      if txs.Err? {
        return Some(txs.error);
      }
      transactions := txs.value;
      var ws := UnmarshalWithdrawals(codecs.withdrawal, buf[o4..]);
      if ws.Err? {
        return Some(ws.error);
      }
      withdrawals := ws.value;
      return None;
    }

    /** Fills only message, header and signature. */
    method UnmarshalSSZHeaderOnly(buf: Bytes) returns (err: Option<SszError>)
      modifies this
      ensures transactions == old(transactions) && withdrawals == old(withdrawals)
      ensures match DecodeHeaderOnly(codecs, buf)
              case Ok(p) => err == None && message == p.message && header == p.header && signature == p.signature
              case Err(e) => err == Some(e)
    {
      if |buf| < FIXED_SIZE {
        return Some(ErrSize);
      }
      var m := codecs.message.decode(buf[0..236]);
      if m.Err? {
        return Some(m.error);
      }
      message := m.value;
      var o1 := ReadOffset(buf[236..240]);
      if o1 > |buf| {
        return Some(ErrOffset);
      }
      if o1 < FIXED_SIZE {
        return Some(ErrInvalidVariableOffset);
      }
      signature := buf[240..336];
      var o3 := ReadOffset(buf[336..340]);
      if o3 > |buf| || o1 > o3 {
        return Some(ErrOffset);
      }
      var h := codecs.header.decode(buf[o1..o3]);
      if h.Err? {
        return Some(h.error);
      }
      header := h.value;
      return None;
    }
  }

  /** Marshalling onto any buffer and unmarshalling the appended part restores the request. */
  method MarshalThenUnmarshal<M(!new), H(!new), W(!new)>(
    src: SubmitBlockRequest<M, H, W>, dst: SubmitBlockRequest<M, H, W>, buf: Bytes)
    returns (ok: bool)
    requires src != dst && src.codecs == dst.codecs && Lawful(src.codecs) && Size(src.codecs, src.View()) < TWO32
    modifies dst
    ensures ok <==> Encode(src.codecs, src.View()).Ok?
    ensures ok ==> dst.View() == src.View()
  {
    var r := src.MarshalSSZTo(buf);
    if r.Err? {
      return false;
    }
    assert r.value[|buf|..] == Encode(src.codecs, src.View()).value;
    RoundTripBelow4GiB(src.codecs, src.View());
    var err := dst.UnmarshalSSZ(r.value[|buf|..]);
    ok := true;
  }
}
