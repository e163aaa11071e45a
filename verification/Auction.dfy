/** The bid auction kept in Redis: one sealed-bid auction per (slot, parent hash, proposer), with
    the latest bid of every builder, the floor (highest non-cancellable bid), the top bid that
    getHeader serves, and the payloads and traces of the saved bids. Writes are queued on a
    pipeline and reach the store only when the pipeline is executed. Key expiry is not modelled.
 */
module Auction {
  import opened Common

  type Pubkey = string
  type Hash = string

  datatype AuctionId = AuctionId(slot: nat, parentHash: Hash, proposer: Pubkey)

  /** Payload and trace keys leave out the parent hash. */
  datatype PayloadId = PayloadId(slot: nat, proposer: Pubkey, blockHash: Hash)

  datatype BidTrace =
    BidTrace(slot: nat, parentHash: Hash, blockHash: Hash, builder: Pubkey, proposer: Pubkey, value: nat)

  datatype Payload = Payload(version: Version, blockHash: Hash, parentHash: Hash, body: string)

  /** The signed builder bid that getHeader returns. */
  datatype Header = Header(blockHash: Hash, value: nat)

  /** What the submission handler received: the builder's bid trace and its execution payload. */
  datatype Request = Request(trace: BidTrace, payload: Payload)

  datatype Submission = Submission(trace: BidTrace, payload: Payload, header: Header, receivedAt: int) {
    function Auction(): AuctionId {
      AuctionId(trace.slot, trace.parentHash, trace.proposer)
    }
    function PayloadKey(): PayloadId {
      PayloadId(trace.slot, trace.proposer, trace.blockHash)
    }
  }

  datatype SanityError = BlockHashMismatch | ParentHashMismatch

  /** SanityCheckBuilderBlockSubmission: the trace must name the payload's own block and parent. */
  function SanityCheck(req: Request): (r: Option<SanityError>)
    ensures r.None? <==> req.trace.blockHash == req.payload.blockHash && req.trace.parentHash == req.payload.parentHash
    ensures r == Some(BlockHashMismatch) <==> req.trace.blockHash != req.payload.blockHash
  {
    if req.trace.blockHash != req.payload.blockHash then Some(BlockHashMismatch)
    else if req.trace.parentHash != req.payload.parentHash then Some(ParentHashMismatch)
    else None
  }

  /** updateRedisBid: the header carries the payload's block hash and the trace's value. */
  function BuildSubmission(req: Request, receivedAt: int): Submission {
    Submission(req.trace, req.payload, Header(req.payload.blockHash, req.trace.value), receivedAt)
  }

  // ---------------------------------------------------------------- the store

  datatype BidKey =
    | LatestBid(auction: AuctionId, builder: Pubkey)
    | TopBid(auction: AuctionId)
    | FloorBid(auction: AuctionId)

  datatype Store = Store(
    bids: map<BidKey, Header>,
    values: map<AuctionId, map<Pubkey, nat>>,
    times: map<AuctionId, map<Pubkey, int>>,
    topValue: map<AuctionId, nat>,
    floorValue: map<AuctionId, nat>,
    payloads: map<(Version, PayloadId), Payload>,
    traces: map<PayloadId, BidTrace>)

  const EMPTY_STORE := Store(map[], map[], map[], map[], map[], map[], map[])

  /** HGETALL: a missing hash reads as an empty one. */
  function Fields<T>(m: map<AuctionId, map<Pubkey, T>>, a: AuctionId): map<Pubkey, T> {
    if a in m then m[a] else map[]
  }

  function Live(s: Store, a: AuctionId): map<Pubkey, nat> {
    Fields(s.values, a)
  }

  /** A missing floor reads as zero. */
  function Floor(s: Store, a: AuctionId): nat {
    if a in s.floorValue then s.floorValue[a] else 0
  }

  /** When the builder's stored bid was received; a missing time reads as zero. */
  function StoredTime(s: Store, a: AuctionId, b: Pubkey): int {
    if b in Fields(s.times, a) then Fields(s.times, a)[b] else 0
  }

  // ---------------------------------------------------------------- the pipeline

  datatype Command =
    | SetPayload(key: PayloadId, payload: Payload)
    | SetLatestBid(auction: AuctionId, builder: Pubkey, header: Header)
    | HSetTime(auction: AuctionId, builder: Pubkey, time: int)
    | HSetValue(auction: AuctionId, builder: Pubkey, value: nat)
    | SetTrace(key: PayloadId, trace: BidTrace)
    | Copy(src: BidKey, dst: BidKey)
    | SetTopValue(auction: AuctionId, value: nat)
    | SetFloorValue(auction: AuctionId, value: nat)

  function Run(s: Store, c: Command): Store {
    match c
    case SetPayload(k, p) => s.(payloads := s.payloads[(p.version, k) := p])
    case SetLatestBid(a, b, h) => s.(bids := s.bids[LatestBid(a, b) := h])
    case HSetTime(a, b, t) => s.(times := s.times[a := Fields(s.times, a)[b := t]])
    case HSetValue(a, b, v) => s.(values := s.values[a := Fields(s.values, a)[b := v]])
    case SetTrace(k, t) => s.(traces := s.traces[k := t])
    case Copy(src, dst) => if src in s.bids then s.(bids := s.bids[dst := s.bids[src]]) else s
    case SetTopValue(a, v) => s.(topValue := s.topValue[a := v])
    case SetFloorValue(a, v) => s.(floorValue := s.floorValue[a := v])
  }

  /** The store after a queue of commands, in order. */
  function Flush(s: Store, q: seq<Command>): Store {
    if q == [] then s else Run(Flush(s, q[..|q| - 1]), q[|q| - 1])
  }

  lemma {:induction false} FlushAppend(s: Store, q: seq<Command>, c: Command)
    ensures Flush(s, q + [c]) == Run(Flush(s, q), c)
  {
  }

  /** Whether the last queued command is a COPY whose source exists when its turn comes. */
  predicate LastCopied(s: Store, q: seq<Command>) {
    q != [] && q[|q| - 1].Copy? && q[|q| - 1].src in Flush(s, q[..|q| - 1]).bids
  }

  // ---------------------------------------------------------------- the maximum over live bids

  /** `getTopBid` promises some builder holding the highest value, or "" and zero when none is positive. */
  predicate IsTopBid(bids: map<Pubkey, nat>, pubkey: Pubkey, value: nat) {
    && (forall b | b in bids :: bids[b] <= value)
    && (if value == 0 then pubkey == "" else pubkey in bids && bids[pubkey] == value)
  }

  ghost function MaxValue(bids: map<Pubkey, nat>): (v: nat)
    ensures forall b | b in bids :: bids[b] <= v
    ensures v == 0 || exists b | b in bids :: bids[b] == v
  {
    if bids == map[] then 0 else
      var b :| b in bids;
      var rest := MaxValue(bids - {b});
      assert forall x | x in bids && x != b :: x in bids - {b} && (bids - {b})[x] == bids[x];
      if bids[b] < rest then rest else bids[b]
  }

  /** The highest value does not depend on the order in which the map is visited. */
  lemma TopBidValueIsMax(bids: map<Pubkey, nat>, pubkey: Pubkey, value: nat)
    requires IsTopBid(bids, pubkey, value)
    ensures value == MaxValue(bids)
  {
  }

  /** The loop over the bid map, in whatever order it is visited. */
  method GetTopBid(bids: map<Pubkey, nat>) returns (pubkey: Pubkey, value: nat)
    ensures IsTopBid(bids, pubkey, value)
    ensures value == MaxValue(bids)
    ensures if value == 0 then pubkey == "" else pubkey in bids && bids[pubkey] == value
  {
    pubkey, value := "", 0;
    var rest := bids.Keys;
    while rest != {}
      invariant rest <= bids.Keys
      invariant IsTopBid(map b | b in bids && b !in rest :: bids[b], pubkey, value)
      decreases |rest|
    {
      var b :| b in rest;
      if bids[b] > value {
        pubkey, value := b, bids[b];
      }
      rest := rest - {b};
    }
    assert (map b | b in bids && b !in rest :: bids[b]) == bids;
    TopBidValueIsMax(bids, pubkey, value);
  }

  // ---------------------------------------------------------------- what one call does, without the pipeline

  datatype SaveResponse = SaveResponse(
    wasBidSaved: bool, wasTopBidUpdated: bool, isNewTopBid: bool, topBidValue: nat, prevTopBidValue: nat)

  datatype SaveResult = Saved(response: SaveResponse) | UnsupportedVersion | CopyFailed(source: BidKey)

  datatype Decision = BelowFloor | TopUnchanged | Accepted

  function Effective(floorArg: Option<nat>, s: Store, a: AuctionId): nat {
    if floorArg.Some? then floorArg.value else Floor(s, a)
  }

  /** The live bids once the submission has replaced its builder's previous one. */
  function LiveAfter(s: Store, sub: Submission): map<Pubkey, nat> {
    Live(s, sub.Auction())[sub.trace.builder := sub.trace.value]
  }

  /** The value the new top is compared with. */
  ghost function ReferenceTop(s: Store, a: AuctionId, floor: nat): nat {
    Max(MaxValue(Live(s, a)), floor)
  }

  ghost function Decide(s: Store, sub: Submission, cancellable: bool, floor: nat): Decision {
    if !cancellable && sub.trace.value <= floor then BelowFloor
    else if MaxValue(LiveAfter(s, sub)) == ReferenceTop(s, sub.Auction(), floor) then TopUnchanged
    else Accepted
  }

  /** The five writes that save one bid, in the order they are queued. */
  function BidWrites(sub: Submission): seq<Command> {
    [ SetPayload(sub.PayloadKey(), sub.payload),
      SetLatestBid(sub.Auction(), sub.trace.builder, sub.header),
      HSetTime(sub.Auction(), sub.trace.builder, sub.receivedAt),
      HSetValue(sub.Auction(), sub.trace.builder, sub.header.value),
      SetTrace(sub.PayloadKey(), sub.trace) ]
  }

  /** The store with one bid written: payload, header, time, value and trace together. */
  function WithBid(s: Store, sub: Submission): Store {
    var a := sub.Auction();
    s.(payloads := s.payloads[(sub.payload.version, sub.PayloadKey()) := sub.payload],
       bids := s.bids[LatestBid(a, sub.trace.builder) := sub.header],
       times := s.times[a := Fields(s.times, a)[sub.trace.builder := sub.receivedAt]],
       values := s.values[a := Fields(s.values, a)[sub.trace.builder := sub.header.value]],
       traces := s.traces[sub.PayloadKey() := sub.trace])
  }

  function WithTop(s: Store, a: AuctionId, h: Header, v: nat): Store {
    s.(bids := s.bids[TopBid(a) := h], topValue := s.topValue[a := v])
  }

  function WithFloor(s: Store, a: AuctionId, h: Header, v: nat): Store {
    s.(bids := s.bids[FloorBid(a) := h], floorValue := s.floorValue[a := v])
  }

  /** Where the new top header comes from: the floor when it is strictly higher than every live bid. */
  ghost function TopSource(bids: map<Pubkey, nat>, a: AuctionId, floor: nat, winner: Pubkey): BidKey {
    if floor > MaxValue(bids) then FloorBid(a) else LatestBid(a, winner)
  }

  /** Serving the best of the given live bids and the floor. */
  ghost function Promote(s: Store, bids: map<Pubkey, nat>, a: AuctionId, floor: nat, winner: Pubkey): Store {
    var src := TopSource(bids, a, floor, winner);
    if src !in s.bids then s else WithTop(s, a, s.bids[src], Max(MaxValue(bids), floor))
  }

  ghost function AcceptedResponse(s: Store, sub: Submission, floor: nat): SaveResponse {
    var prev := ReferenceTop(s, sub.Auction(), floor);
    var top := Max(MaxValue(LiveAfter(s, sub)), floor);
    SaveResponse(true, prev != top, sub.trace.value == top, top, prev)
  }

  /** An accepted bid: written, then the best bid promoted, then, if non-cancellable, made the floor. */
  ghost function AcceptEffect(s: Store, sub: Submission, cancellable: bool, floor: nat, winner: Pubkey)
    : (Store, SaveResult)
  {
    var a := sub.Auction();
    var bids := LiveAfter(s, sub);
    var s1 := WithBid(s, sub);
    var src := TopSource(bids, a, floor, winner);
    if src !in s1.bids then (s1, CopyFailed(src)) else
      var s2 := Promote(s1, bids, a, floor, winner);
      (if cancellable then s2 else WithFloor(s2, a, sub.header, sub.trace.value),
       Saved(AcceptedResponse(s, sub, floor)))
  }

  /** The whole effect of one save: the new store and the result. */
  ghost function SaveEffect(s: Store, sub: Submission, cancellable: bool, floor: nat, winner: Pubkey)
    : (Store, SaveResult)
  {
    var a := sub.Auction();
    var prev := ReferenceTop(s, a, floor);
    match Decide(s, sub, cancellable, floor)
    case BelowFloor => (s, Saved(SaveResponse(false, false, false, prev, prev)))
    case TopUnchanged => (s, Saved(SaveResponse(false, false, false, prev, prev)))
    case Accepted => AcceptEffect(s, sub, cancellable, floor, winner)
  }

  function WithoutBid(s: Store, a: AuctionId, b: Pubkey): Store {
    s.(values := s.values[a := Fields(s.values, a) - {b}], times := s.times[a := Fields(s.times, a) - {b}])
  }

  /** Serving the best of what is stored; with no live bid left the top bid stays as it was. */
  ghost function Repromote(s: Store, a: AuctionId, winner: Pubkey): (Store, Option<BidKey>) {
    var bids := Live(s, a);
    if bids == map[] then (s, None) else
      var src := TopSource(bids, a, Floor(s, a), winner);
      (Promote(s, bids, a, Floor(s, a), winner), if src in s.bids then None else Some(src))
  }

  /** Executing the queued writes of a bid is the same as writing it. */
  lemma FlushBidWrites(s: Store, sub: Submission)
    ensures Flush(s, BidWrites(sub)) == WithBid(s, sub)
  {
    var q := BidWrites(sub);
    assert q[..1] == [] + [q[0]] && q[..2] == q[..1] + [q[1]] && q[..3] == q[..2] + [q[2]]
        && q[..4] == q[..3] + [q[3]] && q == q[..4] + [q[4]];
    FlushAppend(s, [], q[0]);
    FlushAppend(s, q[..1], q[1]);
    FlushAppend(s, q[..2], q[2]);
    FlushAppend(s, q[..3], q[3]);
    FlushAppend(s, q[..4], q[4]);
  }

  lemma FlushOne(s: Store, c: Command)
    ensures Flush(s, [c]) == Run(s, c)
  {
    assert [c][..0] == [];
  }

  lemma LastCopiedAppend(s: Store, q: seq<Command>, src: BidKey, dst: BidKey)
    ensures LastCopied(s, q + [Copy(src, dst)]) <==> src in Flush(s, q).bids
  {
    assert (q + [Copy(src, dst)])[..|q|] == q;
  }

  /** Promoting is a COPY and, if that finds its source, a SET of the top value. */
  lemma PromoteByCommands(s: Store, bids: map<Pubkey, nat>, a: AuctionId, floor: nat, winner: Pubkey)
    ensures var src := TopSource(bids, a, floor, winner);
            var copied := Run(s, Copy(src, TopBid(a)));
            Promote(s, bids, a, floor, winner) ==
            if src in s.bids then Run(copied, SetTopValue(a, Max(MaxValue(bids), floor))) else copied
  {
    hide MaxValue;
  }

  // ---------------------------------------------------------------- the code

  class RedisCache {
    var store: Store

    constructor ()
      ensures store == EMPTY_STORE
    {
      store := EMPTY_STORE;
    }

    /** NewBuilderBidsFromRedis: HGETALL executes whatever was queued before it. */
    method NewBuilderBids(pipe: Pipeliner, a: AuctionId) returns (bids: map<Pubkey, nat>)
      modifies this, pipe
      ensures store == Flush(old(store), old(pipe.queue)) && pipe.queue == []
      ensures bids == Live(store, a)
    {
      var _ := pipe.Exec(this);
      bids := Fields(store.values, a);
    }

    method GetFloorBidValue(pipe: Pipeliner, a: AuctionId) returns (floor: nat)
      modifies this, pipe
      ensures store == Flush(old(store), old(pipe.queue)) && pipe.queue == []
      ensures floor == Floor(store, a)
    {
      var _ := pipe.Exec(this);
      floor := if a in store.floorValue then store.floorValue[a] else 0;
    }

    method GetBuilderLatestPayloadReceivedAt(pipe: Pipeliner, a: AuctionId, builder: Pubkey) returns (time: int)
      modifies this, pipe
      ensures store == Flush(old(store), old(pipe.queue)) && pipe.queue == []
      ensures time == StoredTime(store, a, builder)
    {
      var _ := pipe.Exec(this);
      time := if builder in Fields(store.times, a) then Fields(store.times, a)[builder] else 0;
    }

    /** Queues header, time and value; nothing reaches the store. */
    method SaveBuilderBid(pipe: Pipeliner, a: AuctionId, builder: Pubkey, receivedAt: int, header: Header)
      modifies pipe
      ensures pipe.queue == old(pipe.queue)
                + [SetLatestBid(a, builder, header), HSetTime(a, builder, receivedAt),
                   HSetValue(a, builder, header.value)]
    {
      pipe.queue := pipe.queue + [SetLatestBid(a, builder, header)];
      pipe.queue := pipe.queue + [HSetTime(a, builder, receivedAt)];
      pipe.queue := pipe.queue + [HSetValue(a, builder, header.value)];
    }

    /** The writing half of _updateTopBid: COPY the best bid over the top bid, then set the top value.
        Writes queued by the caller run first, in the same execution as the COPY. */
    method PromoteBest(pipe: Pipeliner, bids: map<Pubkey, nat>, a: AuctionId, floor: nat)
      returns (err: Option<BidKey>, topValue: nat, ghost winner: Pubkey)
      modifies this, pipe
      ensures pipe.queue == []
      ensures IsTopBid(bids, winner, MaxValue(bids)) && topValue == Max(MaxValue(bids), floor)
      ensures var s := Flush(old(store), old(pipe.queue));
              var src := TopSource(bids, a, floor, winner);
              store == Promote(s, bids, a, floor, winner) && err == if src in s.bids then None else Some(src)
    {
      var topBidBuilder;
      topBidBuilder, topValue := GetTopBid(bids);
      err, winner := None, topBidBuilder;
      var source := LatestBid(a, topBidBuilder);
      if floor > topValue {
        topValue := floor;
        source := FloorBid(a);
      }
      assert source == TopSource(bids, a, floor, winner) && topValue == Max(MaxValue(bids), floor);
      hide TopSource, MaxValue, IsTopBid, Promote, Flush, Run, LastCopied;
      ghost var s := Flush(store, pipe.queue);
      PromoteByCommands(s, bids, a, floor, winner);
      FlushAppend(store, pipe.queue, Copy(source, TopBid(a)));
      LastCopiedAppend(store, pipe.queue, source, TopBid(a));
      pipe.queue := pipe.queue + [Copy(source, TopBid(a))];
      var copied := pipe.Exec(this);
      if !copied {
        return Some(source), topValue, winner;
      }
      FlushOne(store, SetTopValue(a, topValue));
      assert pipe.queue + [SetTopValue(a, topValue)] == [SetTopValue(a, topValue)];
      pipe.queue := pipe.queue + [SetTopValue(a, topValue)];
      var _ := pipe.Exec(this);
    }

    /** _updateTopBid with the bids and the floor given, as a save calls it, or read back, as a delete does. */
    method UpdateTopBid(pipe: Pipeliner, givenBids: Option<map<Pubkey, nat>>, a: AuctionId, givenFloor: Option<nat>)
      returns (err: Option<BidKey>, topValue: nat, ghost winner: Pubkey)
      modifies this, pipe
      ensures var s := Flush(old(store), old(pipe.queue));
              var bids := if givenBids.Some? then givenBids.value else Live(s, a);
              var floor := Effective(givenFloor, s, a);
              var src := TopSource(bids, a, floor, winner);
              if bids == map[] then
                && err == None && topValue == 0
                && (if givenBids.Some? then unchanged(this) && unchanged(pipe) else store == s && pipe.queue == [])
              else
                && IsTopBid(bids, winner, MaxValue(bids)) && topValue == Max(MaxValue(bids), floor)
                && store == Promote(s, bids, a, floor, winner) && pipe.queue == []
                && err == if src in s.bids then None else Some(src)
    {
      err, topValue, winner := None, 0, "";
      var bids, floor;
      if givenBids.Some? {
        bids := givenBids.value;
      } else {
        bids := NewBuilderBids(pipe, a);
      }
      if bids == map[] {
        return;
      }
      if givenFloor.Some? {
        floor := givenFloor.value;
      } else {
        floor := GetFloorBidValue(pipe, a);
      }
      err, topValue, winner := PromoteBest(pipe, bids, a, floor);
    }

    /** The last part of a save: a non-cancellable bid above the floor becomes the floor. */
    method SetFloor(pipe: Pipeliner, a: AuctionId, builder: Pubkey, value: nat) returns (copied: bool)
      requires pipe.queue == []
      modifies this, pipe
      ensures pipe.queue == []
      ensures copied == (LatestBid(a, builder) in old(store).bids)
      ensures store ==
                if copied then WithFloor(old(store), a, old(store).bids[LatestBid(a, builder)], value) else old(store)
    {
      var source := LatestBid(a, builder);
      FlushAppend(store, [], Copy(source, FloorBid(a)));
      pipe.queue := pipe.queue + [Copy(source, FloorBid(a))];
      copied := pipe.Exec(this);
      if !copied {
        return;
      }
      FlushAppend(store, [], SetFloorValue(a, value));
      pipe.queue := pipe.queue + [SetFloorValue(a, value)];
      var _ := pipe.Exec(this);
    }

    /** Queues the five writes of one bid. */
    method QueueBidWrites(pipe: Pipeliner, sub: Submission)
      modifies pipe
      ensures pipe.queue == old(pipe.queue) + BidWrites(sub)
    {
      pipe.queue := pipe.queue + [SetPayload(sub.PayloadKey(), sub.payload)];
      SaveBuilderBid(pipe, sub.Auction(), sub.trace.builder, sub.receivedAt, sub.header);
      pipe.queue := pipe.queue + [SetTrace(sub.PayloadKey(), sub.trace)];
    }

    /** The part of a save that runs once the top value is known to change. */
    method CommitBid(pipe: Pipeliner, sub: Submission, cancellable: bool, bids: map<Pubkey, nat>,
                     floor: nat, prevTop: nat)
      returns (result: SaveResult, ghost winner: Pubkey)
      requires pipe.queue == BidWrites(sub)
      requires bids == LiveAfter(store, sub) && prevTop == ReferenceTop(store, sub.Auction(), floor)
      requires cancellable || sub.trace.value > floor
      modifies this, pipe
      ensures pipe.queue == []
      ensures IsTopBid(bids, winner, MaxValue(bids))
      ensures (store, result) == AcceptEffect(old(store), sub, cancellable, floor, winner)
    {
      FlushBidWrites(store, sub);
      assert sub.trace.builder in bids;
      var err, topValue;
      err, topValue, winner := UpdateTopBid(pipe, Some(bids), sub.Auction(), Some(floor));
      if err.Some? {
        return CopyFailed(err.value), winner;
      }
      result := Saved(SaveResponse(true, prevTop != topValue, sub.trace.value == topValue, topValue, prevTop));
      if cancellable {
        return;
      }
      var copied := SetFloor(pipe, sub.Auction(), sub.trace.builder, sub.trace.value);
      if !copied {
        return CopyFailed(LatestBid(sub.Auction(), sub.trace.builder)), winner;
      }
    }

    method SaveBidAndUpdateTopBid(pipe: Pipeliner, sub: Submission, cancellable: bool, floorArg: Option<nat>)
      returns (result: SaveResult, ghost winner: Pubkey)
      modifies this, pipe
      ensures sub.payload.version == Earlier ==> result == UnsupportedVersion && unchanged(this) && unchanged(pipe)
      ensures sub.payload.version != Earlier ==>
                var s := Flush(old(store), old(pipe.queue));
                var floor := Effective(floorArg, s, sub.Auction());
                var decision := Decide(s, sub, cancellable, floor);
                && (decision == Accepted ==> IsTopBid(LiveAfter(s, sub), winner, MaxValue(LiveAfter(s, sub))))
                && (store, result) == SaveEffect(s, sub, cancellable, floor, winner)
                && pipe.queue == if decision == TopUnchanged then BidWrites(sub) else []
    {
      hide Run, AcceptEffect, MaxValue, BidWrites;
      winner := "";
      if sub.payload.version == Earlier {
        return UnsupportedVersion, winner;
      }
      var a := sub.Auction();
      var bids := NewBuilderBids(pipe, a);
      ghost var s := store;
      var floor;
      if floorArg.Some? {
        floor := floorArg.value;
      } else {
        floor := GetFloorBidValue(pipe, a);
      }
      var _, prevTop := GetTopBid(bids);
      if floor > prevTop {
        prevTop := floor;
      }
      var isAboveFloor := sub.trace.value > floor;
      if !cancellable && !isAboveFloor {
        return Saved(SaveResponse(false, false, false, prevTop, prevTop)), winner;
      }
      QueueBidWrites(pipe, sub);
      bids := bids[sub.trace.builder := sub.trace.value];
      var _, newTop := GetTopBid(bids);
      if newTop == prevTop {
        return Saved(SaveResponse(false, false, false, newTop, prevTop)), winner;
      }
      result, winner := CommitBid(pipe, sub, cancellable, bids, floor, prevTop);
    }

    method DelBuilderBid(pipe: Pipeliner, a: AuctionId, builder: Pubkey)
      returns (err: Option<BidKey>, ghost winner: Pubkey)
      modifies this, pipe
      ensures var s := Flush(WithoutBid(old(store), a, builder), old(pipe.queue));
              && (Live(s, a) != map[] ==> IsTopBid(Live(s, a), winner, MaxValue(Live(s, a))))
              && (store, err) == Repromote(s, a, winner)
              && pipe.queue == []
    {
      store := store.(values := store.values[a := Fields(store.values, a) - {builder}]);
      store := store.(times := store.times[a := Fields(store.times, a) - {builder}]);
      var topValue;
      err, topValue, winner := UpdateTopBid(pipe, None, a, None);
    }
  }

  class Pipeliner {
    var queue: seq<Command>

    constructor ()
      ensures queue == []
    {
      queue := [];
    }

    /** Sends the queue, in order, and empties it. Reports whether a final COPY found its source. */
    method Exec(redis: RedisCache) returns (copied: bool)
      modifies this, redis
      ensures redis.store == Flush(old(redis.store), old(queue))
      ensures queue == []
      ensures copied == LastCopied(old(redis.store), old(queue))
    {
      copied := false;
      var i := 0;
      while i < |queue|
        invariant 0 <= i <= |queue| && queue == old(queue)
        invariant redis.store == Flush(old(redis.store), queue[..i])
        invariant copied == LastCopied(old(redis.store), queue[..i])
      {
        assert queue[..i + 1][..i] == queue[..i];
        copied := queue[i].Copy? && queue[i].src in redis.store.bids;
        redis.store := Run(redis.store, queue[i]);
        i := i + 1;
      }
      assert queue[..i] == queue;
      queue := [];
    }
  }

  /** GetPayloadContents: the newest fork's key is tried first. */
  function FindPayload(s: Store, key: PayloadId): Option<Payload> {
    if (Fulu, key) in s.payloads then Some(s.payloads[(Fulu, key)])
    else if (Electra, key) in s.payloads then Some(s.payloads[(Electra, key)])
    else if (Deneb, key) in s.payloads then Some(s.payloads[(Deneb, key)])
    else if (Capella, key) in s.payloads then Some(s.payloads[(Capella, key)])
    else None
  }
}
