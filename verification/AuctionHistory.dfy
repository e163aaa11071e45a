/** What the auction's state says about the submissions that led to it: the floor, the running
    maximum, what a save that returns has written, and which resubmissions are dropped.
 */
module AuctionHistory {
  import opened Common
  import opened Auction
  import opened AuctionProofs

  // ---------------------------------------------------------------- the handler's calls are events

  datatype Status = Rejected | TooLate | Ignored | BidDeleted | Stale | Processed(result: SaveResult) | Failed

  /** A cancellable submission is no older than the builder's stored bid. */
  ghost predicate NewestWins(s: Store, e: Event) {
    e.Save? && e.cancellable ==> e.receivedAt >= StoredTime(s, Sub(e).Auction(), e.req.trace.builder)
  }

  /** The auction part of the submission handler: reject zero-valued, empty or mismatched submissions,
      then checkFloorBidValue, then, with cancellations, the newest-wins check, then updateRedisBid with the
      floor just read. `delivered` is the last delivered slot (zero when there is none), or None when it
      cannot be read; `timesUp` is whether the stored time can be read. */
  method HandleSubmission(redis: RedisCache, req: Request, txCount: nat, receivedAt: int, cancellable: bool,
                          delivered: Option<nat>, timesUp: bool)
    returns (status: Status, ghost event: Option<Event>)
    modifies redis
    ensures event.None? ==> redis.store == old(redis.store)
    ensures event.Some? ==> Legal(old(redis.store), event.value) && redis.store == Apply(old(redis.store), event.value)
    ensures event.Some? && timesUp ==> NewestWins(old(redis.store), event.value)
    ensures status == Rejected <==>
              || req.trace.value == 0 || txCount == 0
              || req.trace.blockHash != req.payload.blockHash || req.trace.parentHash != req.payload.parentHash
    ensures status == TooLate <==> status != Rejected && delivered.Some? && req.trace.slot <= delivered.value
    ensures status !in {Rejected, TooLate} ==>
              var a := BuildSubmission(req, receivedAt).Auction();
              var floor := Floor(old(redis.store), a);
              && (status.BidDeleted? || status.Failed? <==> cancellable && req.trace.value < floor)
              && (status == Ignored <==> !cancellable && req.trace.value <= floor)
              && var newer := timesUp && receivedAt < StoredTime(old(redis.store), a, req.trace.builder);
              && (status == Stale <==> cancellable && req.trace.value >= floor && newer)
    ensures status.Processed? <==> event.Some? && event.value.Save?
    ensures status.BidDeleted? || status.Failed? <==> event.Some? && event.value.Delete?
    ensures status.Processed? ==>
              && event.value.req == req
              && event.value.receivedAt == receivedAt && event.value.cancellable == cancellable
              && status.result == Outcome(old(redis.store), event.value).1
    ensures status.BidDeleted? || status.Failed? ==>
              && event.value.auction == BuildSubmission(req, receivedAt).Auction()
              && event.value.builder == req.trace.builder
  {
    event := None;
    if req.trace.value == 0 || txCount == 0 || SanityCheck(req).Some? {
      return Rejected, event;
    }
    if delivered.Some? && req.trace.slot <= delivered.value {
      return TooLate, event;
    }
    var sub := BuildSubmission(req, receivedAt);
    var pipe := new Pipeliner();
    var floor := redis.GetFloorBidValue(pipe, sub.Auction());
    if cancellable && req.trace.value < floor {
      var err, winner := redis.DelBuilderBid(pipe, sub.Auction(), req.trace.builder);
      event := Some(Delete(sub.Auction(), req.trace.builder, winner));
      return if err.Some? then Failed else BidDeleted, event;
    }
    if !cancellable && req.trace.value <= floor {
      return Ignored, event;
    }
    if cancellable {
      var latest := redis.GetBuilderLatestPayloadReceivedAt(pipe, sub.Auction(), req.trace.builder);
      if timesUp && receivedAt < latest {
        return Stale, event;
      }
    }
    var result, winner := redis.SaveBidAndUpdateTopBid(pipe, sub, cancellable, Some(floor));
    event := Some(Save(req, receivedAt, cancellable, Some(floor), winner));
    status := Processed(result);
  }

  // ---------------------------------------------------------------- all or nothing

  /** Payload, header, time, value and trace of this submission are all in the store. */
  ghost predicate FullyWritten(s: Store, sub: Submission) {
    var a, b := sub.Auction(), sub.trace.builder;
    && (sub.payload.version, sub.PayloadKey()) in s.payloads
    && s.payloads[(sub.payload.version, sub.PayloadKey())] == sub.payload
    && LatestBid(a, b) in s.bids && s.bids[LatestBid(a, b)] == sub.header
    && b in Fields(s.times, a) && Fields(s.times, a)[b] == sub.receivedAt
    && b in Live(s, a) && Live(s, a)[b] == sub.header.value
    && sub.PayloadKey() in s.traces && s.traces[sub.PayloadKey()] == sub.trace
  }

  lemma WithBidWrites(s: Store, sub: Submission)
    ensures FullyWritten(WithBid(s, sub), sub)
  {
  }

  lemma PromoteKeepsWritten(s: Store, sub: Submission, bids: map<Pubkey, nat>, a: AuctionId, floor: nat, winner: Pubkey)
    requires FullyWritten(s, sub)
    ensures FullyWritten(Promote(s, bids, a, floor, winner), sub)
  {
  }

  /** A save that returns has either left the store exactly as it was, or written payload, header,
      time, value and trace together and made the reported top value the stored one. */
  lemma SaveIsAllOrNothing(s: Store, sub: Submission, cancellable: bool, floor: nat, winner: Pubkey)
    ensures var (s', r) := SaveEffect(s, sub, cancellable, floor, winner);
            var a := sub.Auction();
            r.Saved? ==>
              if !r.response.wasBidSaved then s' == s
              else FullyWritten(s', sub) && a in s'.topValue && s'.topValue[a] == r.response.topBidValue
  {
    var s1 := WithBid(s, sub);
    WithBidWrites(s, sub);
    PromoteKeepsWritten(s1, sub, LiveAfter(s, sub), sub.Auction(), floor, winner);
    var s2 := Promote(s1, LiveAfter(s, sub), sub.Auction(), floor, winner);
    assert FullyWritten(WithFloor(s2, sub.Auction(), sub.header, sub.trace.value), sub);
  }

  // ---------------------------------------------------------------- which submissions are saved

  /** The caller can tell beforehand: a submission is dropped when it only equals the current top, or
      stays below a top that another builder's live bid holds. */
  ghost predicate WillBeDropped(s: Store, sub: Submission, floor: nat) {
    var a := sub.Auction();
    var top := ReferenceTop(s, a, floor);
    || sub.trace.value == top
    || (sub.trace.value < top && exists b | b in Live(s, a) && b != sub.trace.builder :: Live(s, a)[b] == top)
  }

  lemma DroppedIff(s: Store, sub: Submission, floor: nat)
    ensures MaxValue(LiveAfter(s, sub)) == ReferenceTop(s, sub.Auction(), floor) <==> WillBeDropped(s, sub, floor)
  {
    var live := Live(s, sub.Auction());
    var bids := LiveAfter(s, sub);
    var top := ReferenceTop(s, sub.Auction(), floor);
    assert forall b | b in live && b != sub.trace.builder :: b in bids && bids[b] == live[b];
    assert bids[sub.trace.builder] == sub.trace.value;
    if MaxValue(bids) == top && sub.trace.value < top {
      var b :| b in bids && bids[b] == top;
      assert b in live && b != sub.trace.builder;
    }
  }

  ghost predicate WasSaved(s: Store, e: Event) {
    e.Save? && Outcome(s, e).1.Saved? && Outcome(s, e).1.response.wasBidSaved
  }

  /** What decides, before the call, whether a submission is saved: a supported fork, a value above the
      floor unless it is cancellable, and a change of the top value. */
  ghost predicate WillBeSaved(s: Store, e: Event) {
    && e.Save? && e.req.payload.version != Earlier
    && var floor := Floor(s, Sub(e).Auction());
       (e.cancellable || e.req.trace.value > floor) && !WillBeDropped(s, Sub(e), floor)
  }

  lemma AcceptedIsSaved(s: Store, sub: Submission, cancellable: bool, floor: nat, winner: Pubkey)
    requires SaveEffect(s, sub, cancellable, floor, winner).1.Saved?
    ensures SaveEffect(s, sub, cancellable, floor, winner).1.response.wasBidSaved <==>
              Decide(s, sub, cancellable, floor) == Accepted
  {
    hide Decide, WithBid, Promote, TopSource, LiveAfter;
  }

  lemma WasSavedIff(s: Store, e: Event)
    requires Inv(s) && Legal(s, e)
    ensures WasSaved(s, e) <==> WillBeSaved(s, e)
  {
    if e.Save? && e.req.payload.version != Earlier {
      var floor := Floor(s, Sub(e).Auction());
      assert Outcome(s, e).1.Saved? by { SaveKeepsOwnAuction(s, e); }
      assert Effective(e.floorArg, s, Sub(e).Auction()) == floor;
      hide Inv, Legal, Effective, SaveEffect, WillBeDropped, LiveAfter, MaxValue, ReferenceTop;
      AcceptedIsSaved(s, Sub(e), e.cancellable, floor, e.winner);
      DroppedIff(s, Sub(e), floor);
    }
  }

  // ---------------------------------------------------------------- the floor

  ghost predicate SetsFloor(s: Store, e: Event, a: AuctionId) {
    WasSaved(s, e) && !e.cancellable && Sub(e).Auction() == a
  }

  /** The highest non-cancellable bid of this auction that any call of the run has saved. */
  ghost function HighestSaved(es: seq<Event>, a: AuctionId): nat {
    if es == [] then 0 else
      var before, e := es[..|es| - 1], es[|es| - 1];
      if SetsFloor(After(before), e, a) then Max(HighestSaved(before, a), e.req.trace.value)
      else HighestSaved(before, a)
  }

  lemma SaveFloor(s: Store, sub: Submission, cancellable: bool, winner: Pubkey, a: AuctionId)
    requires SaveEffect(s, sub, cancellable, Floor(s, sub.Auction()), winner).1.Saved?
    ensures var (s', r) := SaveEffect(s, sub, cancellable, Floor(s, sub.Auction()), winner);
            if r.response.wasBidSaved && !cancellable && a == sub.Auction()
            then Floor(s', a) == sub.trace.value > Floor(s, a)
            else Floor(s', a) == Floor(s, a)
  {
  }

  lemma FloorStep(s: Store, e: Event, a: AuctionId)
    requires Inv(s) && Legal(s, e)
    ensures if SetsFloor(s, e, a) then Floor(Apply(s, e), a) == e.req.trace.value > Floor(s, a)
            else Floor(Apply(s, e), a) == Floor(s, a)
  {
    if e.Save? && e.req.payload.version != Earlier {
      SaveKeepsOwnAuction(s, e);
      SaveFloor(s, Sub(e), e.cancellable, e.winner, a);
    } else if e.Delete? {
      var s1 := WithoutBid(s, e.auction, e.builder);
      assert Promote(s1, Live(s1, e.auction), e.auction, Floor(s1, e.auction), e.winner).floorValue == s.floorValue;
    }
  }

  /** In every run the floor is the maximum of all saved non-cancellable bids. */
  lemma {:induction false} FloorIsHighestSaved(es: seq<Event>, a: AuctionId)
    requires LegalRun(es)
    ensures Floor(After(es), a) == HighestSaved(es, a)
  {
    if es != [] {
      var before := es[..|es| - 1];
      FloorIsHighestSaved(before, a);
      RunKeepsInv(before);
      FloorStep(After(before), es[|es| - 1], a);
    }
  }

  lemma {:induction false} LegalPrefix(es: seq<Event>, i: nat)
    requires LegalRun(es) && i <= |es|
    ensures LegalRun(es[..i])
    ensures i < |es| ==> Legal(After(es[..i]), es[i])
  {
    if i < |es| {
      var before := es[..|es| - 1];
      assert before[..i] == es[..i];
      LegalPrefix(before, i);
    } else {
      assert es[..i] == es;
    }
  }

  lemma AfterOneMore(es: seq<Event>, i: nat)
    requires i < |es|
    ensures After(es[..i + 1]) == Apply(After(es[..i]), es[i])
  {
    hide Apply;
    assert es[..i + 1][..i] == es[..i];
  }

  lemma {:induction false} HighestSavedGrows(es: seq<Event>, i: nat, a: AuctionId)
    requires i <= |es|
    ensures HighestSaved(es[..i], a) <= HighestSaved(es, a)
  {
    if i < |es| {
      var before := es[..|es| - 1];
      assert before[..i] == es[..i];
      HighestSavedGrows(before, i, a);
    } else {
      assert es[..i] == es;
    }
  }

  lemma HighestOneMore(es: seq<Event>, e: Event, a: AuctionId)
    requires SetsFloor(After(es), e, a)
    ensures HighestSaved(es + [e], a) >= e.req.trace.value
  {
    assert (es + [e])[..|es|] == es;
    hide After, SetsFloor;
  }

  lemma LegalFloorIsPositive(s: Store, e: Event, a: AuctionId)
    requires Legal(s, e) && SetsFloor(s, e, a)
    ensures e.Save? && e.req.trace.value > 0
  {
  }

  lemma SavedCounts(es: seq<Event>, i: nat, a: AuctionId)
    requires LegalRun(es) && i < |es| && SetsFloor(After(es[..i]), es[i], a)
    ensures HighestSaved(es[..i + 1], a) >= es[i].req.trace.value > 0
  {
    hide After, LegalRun, SetsFloor, HighestSaved, Legal;
    LegalPrefix(es, i);
    LegalFloorIsPositive(After(es[..i]), es[i], a);
    HighestOneMore(es[..i], es[i], a);
    assert es[..i + 1] == es[..i] + [es[i]];
  }

  /** Whatever is cancelled or deleted later, the served header stays worth at least every
      non-cancellable bid that was ever saved. */
  lemma SavedBidIsNeverUndercut(es: seq<Event>, i: nat, a: AuctionId)
    requires LegalRun(es) && i < |es| && SetsFloor(After(es[..i]), es[i], a)
    ensures var s := After(es);
            a in s.topValue && TopBid(a) in s.bids && s.topValue[a] == s.bids[TopBid(a)].value >= es[i].req.trace.value
  {
    SavedCounts(es, i, a);
    hide After, LegalRun, SetsFloor, HighestSaved;
    HighestSavedGrows(es, i + 1, a);
    FloorIsHighestSaved(es, a);
    TopIsBestOfFloorAndLive(es, a);
  }

  // ---------------------------------------------------------------- the time of a builder's bid

  /** The event saves a bid of this builder in this auction. */
  ghost predicate SavesBidOf(s: Store, e: Event, a: AuctionId, b: Pubkey) {
    WillBeSaved(s, e) && Sub(e).Auction() == a && e.req.trace.builder == b
  }

  predicate DeletesBidOf(e: Event, a: AuctionId, b: Pubkey) {
    e.Delete? && e.auction == a && e.builder == b
  }

  lemma SaveTimes(s: Store, sub: Submission, cancellable: bool, floor: nat, winner: Pubkey)
    requires SaveEffect(s, sub, cancellable, floor, winner).1.Saved?
    ensures var (s', r) := SaveEffect(s, sub, cancellable, floor, winner);
            s'.times == if r.response.wasBidSaved then WithBid(s, sub).times else s.times
  {
    hide Decide, WithBid, TopSource, LiveAfter, MaxValue;
  }

  lemma SaveTime(s: Store, sub: Submission, cancellable: bool, floor: nat, winner: Pubkey, a: AuctionId, b: Pubkey)
    requires SaveEffect(s, sub, cancellable, floor, winner).1.Saved?
    ensures var (s', r) := SaveEffect(s, sub, cancellable, floor, winner);
            StoredTime(s', a, b) ==
            if r.response.wasBidSaved && a == sub.Auction() && b == sub.trace.builder then sub.receivedAt
            else StoredTime(s, a, b)
  {
    SaveTimes(s, sub, cancellable, floor, winner);
    hide SaveEffect;
  }

  lemma TimeStep(s: Store, e: Event, a: AuctionId, b: Pubkey)
    requires Inv(s) && Legal(s, e)
    ensures StoredTime(Apply(s, e), a, b) ==
            if DeletesBidOf(e, a, b) then 0 else if SavesBidOf(s, e, a, b) then e.receivedAt else StoredTime(s, a, b)
  {
    if e.Delete? {
      DeleteTime(s, e, a, b);
    } else if e.req.payload.version != Earlier {
      SaveKeepsOwnAuction(s, e);
      WasSavedIff(s, e);
      hide SaveEffect, Inv, Legal, StoredTime, WillBeSaved;
      SaveTime(s, Sub(e), e.cancellable, Effective(e.floorArg, s, Sub(e).Auction()), e.winner, a, b);
    }
  }

  lemma DeleteTime(s: Store, e: Event, a: AuctionId, b: Pubkey)
    requires e.Delete?
    ensures StoredTime(Apply(s, e), a, b) == if DeletesBidOf(e, a, b) then 0 else StoredTime(s, a, b)
  {
    var s1 := WithoutBid(s, e.auction, e.builder);
    assert Apply(s, e).times == s1.times by {
      hide WithoutBid, MaxValue, TopSource;
      assert Apply(s, e) in {s1, Promote(s1, Live(s1, e.auction), e.auction, Floor(s1, e.auction), e.winner)};
    }
    hide Apply;
  }

  /** A builder's stored bid time goes back exactly when its bid is deleted, or when an older bid of its
      own without cancellation is saved over it: the newest-wins check looks at cancellable bids only. */
  lemma TimeDropsIff(s: Store, e: Event, a: AuctionId, b: Pubkey)
    requires Inv(s) && Legal(s, e) && NewestWins(s, e)
    ensures StoredTime(Apply(s, e), a, b) < StoredTime(s, a, b) <==>
              || (DeletesBidOf(e, a, b) && StoredTime(s, a, b) > 0)
              || (SavesBidOf(s, e, a, b) && !e.cancellable && e.receivedAt < StoredTime(s, a, b))
  {
    TimeStep(s, e, a, b);
  }

  /** A step that leaves the builder's stored time alone or moves it forward. */
  ghost predicate KeepsTime(s: Store, e: Event, a: AuctionId, b: Pubkey) {
    NewestWins(s, e) && !DeletesBidOf(e, a, b) && (SavesBidOf(s, e, a, b) ==> e.cancellable)
  }

  /** So for a builder that only submits with cancellation, the stored time never decreases between two
      deletions of its bid, over every run of handled submissions. */
  lemma {:induction false} TimeNeverDecreases(es: seq<Event>, i: nat, k: nat, a: AuctionId, b: Pubkey)
    requires LegalRun(es) && i <= k <= |es|
    requires forall n | i <= n < k :: KeepsTime(After(es[..n]), es[n], a, b)
    ensures StoredTime(After(es[..i]), a, b) <= StoredTime(After(es[..k]), a, b)
  {
    hide After, Apply, LegalRun, Legal, Inv, WillBeSaved, StoredTime;
    if i < k {
      TimeNeverDecreases(es, i, k - 1, a, b);
      LegalPrefix(es, k - 1);
      RunKeepsInv(es[..k - 1]);
      AfterOneMore(es, k - 1);
      assert KeepsTime(After(es[..k - 1]), es[k - 1], a, b);
      TimeDropsIff(After(es[..k - 1]), es[k - 1], a, b);
    }
  }

  // ---------------------------------------------------------------- without cancellations: a running maximum

  ghost predicate NoCancellations(es: seq<Event>) {
    forall i | 0 <= i < |es| :: es[i].Save? && !es[i].cancellable
  }

  ghost predicate Competes(e: Event, a: AuctionId) {
    e.Save? && Sub(e).Auction() == a && e.req.payload.version != Earlier
  }

  /** The index of the record holder: a later submission takes over only by being strictly higher. */
  ghost function RecordHolder(es: seq<Event>, a: AuctionId): (r: Option<nat>)
    ensures r.Some? ==> r.value < |es| && Competes(es[r.value], a)
  {
    if es == [] then None else
      var prev := RecordHolder(es[..|es| - 1], a);
      if Competes(es[|es| - 1], a) && (prev.None? || es[|es| - 1].req.trace.value > es[prev.value].req.trace.value)
      then Some(|es| - 1) else prev
  }

  /** The record holder is the earliest competing submission that attains the highest value. */
  lemma {:induction false} RecordHolderIsEarliestHighest(es: seq<Event>, a: AuctionId)
    ensures RecordHolder(es, a).None? <==> forall i | 0 <= i < |es| :: !Competes(es[i], a)
    ensures RecordHolder(es, a).Some? ==>
              forall i | 0 <= i < |es| && Competes(es[i], a) ::
                var h := RecordHolder(es, a).value;
                if i < h then es[i].req.trace.value < es[h].req.trace.value
                else es[i].req.trace.value <= es[h].req.trace.value
  {
    if es != [] {
      RecordHolderIsEarliestHighest(es[..|es| - 1], a);
      var before := es[..|es| - 1];
      assert forall i | 0 <= i < |es| - 1 :: before[i] == es[i];
    }
  }

  /** Floor and top agree with the record, and no live bid is higher. */
  ghost predicate MatchesRecord(s: Store, a: AuctionId, record: Option<Header>) {
    && (forall b | b in Live(s, a) :: Live(s, a)[b] <= Floor(s, a))
    && (record.None? <==> a !in s.topValue) && (record.None? <==> TopBid(a) !in s.bids)
    && (record.None? ==> Floor(s, a) == 0)
    && (record.Some? ==> s.bids[TopBid(a)] == record.value && s.topValue[a] == Floor(s, a) == record.value.value > 0)
  }

  lemma MaxValueIs(bids: map<Pubkey, nat>, b: Pubkey)
    requires b in bids && forall x | x in bids :: bids[x] <= bids[b]
    ensures MaxValue(bids) == bids[b]
  {
  }

  /** Without cancellations a save is accepted exactly when it is strictly above the floor. */
  lemma AcceptedIffAboveFloor(s: Store, sub: Submission)
    requires forall b | b in Live(s, sub.Auction()) :: Live(s, sub.Auction())[b] <= Floor(s, sub.Auction())
    ensures Decide(s, sub, false, Floor(s, sub.Auction())) ==
            (if sub.trace.value > Floor(s, sub.Auction()) then Accepted else BelowFloor)
    ensures sub.trace.value > Floor(s, sub.Auction()) ==> MaxValue(LiveAfter(s, sub)) == sub.trace.value
  {
    if sub.trace.value > Floor(s, sub.Auction()) {
      MaxValueIs(LiveAfter(s, sub), sub.trace.builder);
    }
  }

  /** A bid that is written, served and made the floor. */
  function Enthroned(s: Store, sub: Submission): Store {
    var a := sub.Auction();
    WithFloor(WithTop(WithBid(s, sub), a, sub.header, sub.trace.value), a, sub.header, sub.trace.value)
  }

  lemma EnthronedMatchesRecord(s: Store, sub: Submission)
    requires forall b | b in LiveAfter(s, sub) :: LiveAfter(s, sub)[b] <= sub.trace.value
    requires sub.header.value == sub.trace.value > 0
    ensures MatchesRecord(Enthroned(s, sub), sub.Auction(), Some(sub.header))
  {
    assert Live(Enthroned(s, sub), sub.Auction()) == LiveAfter(s, sub);
  }

  lemma AcceptedIsEnthroned(s: Store, sub: Submission, floor: nat, winner: Pubkey)
    requires MaxValue(LiveAfter(s, sub)) == sub.trace.value > floor && winner == sub.trace.builder
    ensures AcceptEffect(s, sub, false, floor, winner).0 == Enthroned(s, sub)
  {
  }

  /** A new strict record is promoted and becomes the floor. */
  lemma RecordTakesOver(s: Store, e: Event)
    requires Inv(s) && Legal(s, e) && e.Save? && !e.cancellable && e.req.payload.version != Earlier
    requires forall b | b in Live(s, Sub(e).Auction()) :: Live(s, Sub(e).Auction())[b] <= Floor(s, Sub(e).Auction())
    requires e.req.trace.value > Floor(s, Sub(e).Auction())
    ensures MatchesRecord(Apply(s, e), Sub(e).Auction(), Some(Sub(e).header))
  {
    hide Inv, AcceptEffect, Enthroned, MatchesRecord;
    var sub := Sub(e);
    AcceptedIffAboveFloor(s, sub);
    assert e.winner == sub.trace.builder;
    AcceptedIsEnthroned(s, sub, Floor(s, sub.Auction()), e.winner);
    EnthronedMatchesRecord(s, sub);
  }

  lemma OtherAuctionKeepsRecord(s: Store, t: Store, a: AuctionId, record: Option<Header>)
    requires MatchesRecord(s, a, record) && SameAuction(s, t, a)
    ensures MatchesRecord(t, a, record)
  {
  }

  lemma BelowFloorIsIgnored(s: Store, e: Event)
    requires Legal(s, e) && e.Save? && !e.cancellable && e.req.payload.version != Earlier
    requires e.req.trace.value <= Floor(s, Sub(e).Auction())
    ensures Apply(s, e) == s && !WasSaved(s, e)
  {
    hide AcceptEffect, IsTopBid, MaxValue;
  }

  lemma CompetitorStep(s: Store, e: Event, a: AuctionId, record: Option<Header>)
    requires Inv(s) && Legal(s, e) && e.Save? && !e.cancellable && Competes(e, a)
    requires MatchesRecord(s, a, record)
    ensures WasSaved(s, e) <==> record.None? || e.req.trace.value > record.value.value
    ensures MatchesRecord(Apply(s, e), a, if WasSaved(s, e) then Some(Sub(e).header) else record)
  {
    if e.req.trace.value > Floor(s, a) {
      AcceptedIffAboveFloor(s, Sub(e));
      WasSavedIff(s, e);
      DroppedIff(s, Sub(e), Floor(s, a));
      RecordTakesOver(s, e);
      assert MaxValue(LiveAfter(s, Sub(e))) > ReferenceTop(s, a, Floor(s, a));
    } else {
      BelowFloorIsIgnored(s, e);
    }
    hide Apply, WasSaved, Inv, Legal, WillBeDropped;
  }

  lemma RecordStep(s: Store, e: Event, a: AuctionId, record: Option<Header>)
    requires Inv(s) && Legal(s, e) && e.Save? && !e.cancellable
    requires MatchesRecord(s, a, record)
    ensures Competes(e, a) ==> (WasSaved(s, e) <==> record.None? || e.req.trace.value > record.value.value)
    ensures MatchesRecord(Apply(s, e), a, if Competes(e, a) && WasSaved(s, e) then Some(Sub(e).header) else record)
  {
    if Competes(e, a) {
      CompetitorStep(s, e, a, record);
    } else if e.req.payload.version != Earlier {
      SaveLeavesOtherAuctions(s, Sub(e), false, Floor(s, Sub(e).Auction()), e.winner, a);
      OtherAuctionKeepsRecord(s, Apply(s, e), a, record);
    }
  }

  ghost function RecordHeader(es: seq<Event>, a: AuctionId): Option<Header> {
    if RecordHolder(es, a).None? then None else Some(Sub(es[RecordHolder(es, a).value]).header)
  }

  lemma {:induction false} StoreMatchesRecord(es: seq<Event>, a: AuctionId)
    requires LegalRun(es) && NoCancellations(es)
    ensures MatchesRecord(After(es), a, RecordHeader(es, a))
  {
    if es != [] {
      var before, e := es[..|es| - 1], es[|es| - 1];
      StoreMatchesRecord(before, a);
      RunKeepsInv(before);
      RecordStep(After(before), e, a, RecordHeader(before, a));
      if RecordHolder(before, a).Some? {
        assert before[RecordHolder(before, a).value] == es[RecordHolder(before, a).value];
      }
    }
  }

  /** Without cancellations the store refines a plain running maximum: it serves the header of the
      earliest submission with the highest value, and a bid is saved exactly when it is a new strict record. */
  lemma RefinesRunningMaximum(es: seq<Event>, a: AuctionId, e: Event)
    requires LegalRun(es) && NoCancellations(es)
    requires Legal(After(es), e) && !e.Delete? && !e.cancellable && Competes(e, a)
    ensures var s := After(es); var h := RecordHolder(es, a);
            && (h.None? <==> TopBid(a) !in s.bids)
            && (h.None? <==> a !in s.topValue)
            && (h.Some? ==>
                  s.bids[TopBid(a)] == Sub(es[h.value]).header && s.topValue[a] == es[h.value].req.trace.value)
            && (WasSaved(s, e) <==>
                  forall i | 0 <= i < |es| && Competes(es[i], a) :: es[i].req.trace.value < e.req.trace.value)
  {
    hide After, Apply, LegalRun, Legal, Inv, WasSaved, RecordHolder;
    StoreMatchesRecord(es, a);
    RunKeepsInv(es);
    RecordStep(After(es), e, a, RecordHeader(es, a));
    StrictRecordIff(es, a, e.req.trace.value);
  }

  /** A value beats the record exactly when it beats every competing submission. */
  lemma StrictRecordIff(es: seq<Event>, a: AuctionId, value: nat)
    ensures RecordHolder(es, a).None? || value > es[RecordHolder(es, a).value].req.trace.value <==>
              forall i | 0 <= i < |es| && Competes(es[i], a) :: es[i].req.trace.value < value
  {
    RecordHolderIsEarliestHighest(es, a);
    hide RecordHolder, Competes;
  }

  // ---------------------------------------------------------------- dropped resubmissions

  /** A builder that resubmits with cancellation expects the new bid to replace its old one. It does,
      unless the submission is dropped: then the old bid stays live, at its old value. */
  lemma ResubmissionReplacesIff(s: Store, e: Event)
    requires Inv(s) && Legal(s, e) && e.Save? && e.cancellable && e.req.payload.version != Earlier
    ensures var a, b := Sub(e).Auction(), e.req.trace.builder;
            var already := b in Live(s, a) && Live(s, a)[b] == e.req.trace.value;
            && ((b in Live(Apply(s, e), a) && Live(Apply(s, e), a)[b] == e.req.trace.value)
                  <==> !WillBeDropped(s, Sub(e), Floor(s, a)) || already)
            && (WillBeDropped(s, Sub(e), Floor(s, a)) ==> Apply(s, e) == s)
  {
    StepKeepsInv(s, e);
    DroppedIff(s, Sub(e), Floor(s, Sub(e).Auction()));
    SaveIsAllOrNothing(s, Sub(e), true, Floor(s, Sub(e).Auction()), e.winner);
  }

  /** The live bids, the served header and the builders' latest headers of a floorless auction. */
  ghost predicate Holds(s: Store, a: AuctionId, live: map<Pubkey, nat>, latest: map<Pubkey, Header>,
                        top: Option<Header>)
  {
    && Live(s, a) == live && a !in s.floorValue && Lookup(s.bids, TopBid(a)) == top
    && (forall b | b in latest :: Lookup(s.bids, LatestBid(a, b)) == Some(latest[b]))
  }

  lemma WithBidHolds(s: Store, sub: Submission, live: map<Pubkey, nat>, latest: map<Pubkey, Header>,
                     top: Option<Header>)
    requires Holds(s, sub.Auction(), live, latest, top) && sub.header.value == sub.trace.value
    ensures var b := sub.trace.builder;
            Holds(WithBid(s, sub), sub.Auction(), live[b := sub.trace.value], latest[b := sub.header], top)
  {
  }

  lemma PromotedHolds(s: Store, a: AuctionId, winner: Pubkey, live: map<Pubkey, nat>,
                      latest: map<Pubkey, Header>, top: Option<Header>)
    requires Holds(s, a, live, latest, top) && winner in latest
    ensures LatestBid(a, winner) in s.bids
    ensures Holds(Promote(s, live, a, 0, winner), a, live, latest, Some(latest[winner]))
  {
  }

  lemma CancellableStep(s: Store, e: Event, live: map<Pubkey, nat>, latest: map<Pubkey, Header>, top: Option<Header>)
    requires e.Save? && e.cancellable && e.floorArg.None? && e.req.payload.version != Earlier
    requires SanityCheck(e.req).None? && e.req.trace.value > 0
    requires Holds(s, Sub(e).Auction(), live, latest, top)
    requires e.winner in latest || e.winner == e.req.trace.builder
    requires MaxValue(live[e.req.trace.builder := e.req.trace.value]) != MaxValue(live)
    requires IsTopBid(live[e.req.trace.builder := e.req.trace.value], e.winner,
                      MaxValue(live[e.req.trace.builder := e.req.trace.value]))
    ensures Legal(s, e)
    ensures var latest' := latest[e.req.trace.builder := Sub(e).header];
            Holds(Apply(s, e), Sub(e).Auction(), live[e.req.trace.builder := e.req.trace.value],
                  latest', Some(latest'[e.winner]))
  {
    WithBidHolds(s, Sub(e), live, latest, top);
    PromotedHolds(WithBid(s, Sub(e)), Sub(e).Auction(), e.winner, LiveAfter(s, Sub(e)),
                  latest[e.req.trace.builder := Sub(e).header], top);
    assert Decide(s, Sub(e), true, 0) == Accepted;
    assert Apply(s, e) == AcceptEffect(s, Sub(e), true, 0, e.winner).0;
  }

  lemma DroppedStep(s: Store, e: Event, live: map<Pubkey, nat>, latest: map<Pubkey, Header>, top: Option<Header>)
    requires e.Save? && e.cancellable && e.floorArg.None? && e.req.payload.version != Earlier
    requires SanityCheck(e.req).None? && e.req.trace.value > 0
    requires Holds(s, Sub(e).Auction(), live, latest, top)
    requires MaxValue(live[e.req.trace.builder := e.req.trace.value]) == MaxValue(live)
    ensures Legal(s, e) && Apply(s, e) == s
  {
  }

  function Bid(builder: Pubkey, hash: Hash, value: nat, winner: Pubkey): Event {
    Save(Request(BidTrace(1, "p", hash, builder, "v", value), Payload(Capella, hash, "p", "")), 0, true, None, winner)
  }

  /** B bids 8, A bids 10, B lowers its bid to 5, A lowers its bid to 3: the third call is dropped, so
      the relay goes on to serve B's withdrawn bid of 8, above the 5 and 3 the builders now offer. */
  lemma WithdrawnBidIsServed()
    ensures var es := [Bid("B", "b8", 8, "B"), Bid("A", "a10", 10, "A"),
                       Bid("B", "b5", 5, "B"), Bid("A", "a3", 3, "B")];
            && LegalRun(es)
            && Lookup(After(es).bids, TopBid(AuctionId(1, "p", "v"))) == Some(Header("b8", 8))
  {
    var e0, e1 := Bid("B", "b8", 8, "B"), Bid("A", "a10", 10, "A");
    var e2, e3 := Bid("B", "b5", 5, "B"), Bid("A", "a3", 3, "B");
    var b8, a10 := Header("b8", 8), Header("a10", 10);
    var live1: map<Pubkey, nat>, latest1: map<Pubkey, Header> := map[]["B" := 8], map[]["B" := b8];
    var live2, latest2 := live1["A" := 10], latest1["A" := a10];
    MaxValueIs(live1, "B");
    MaxValueIs(live2, "A");
    MaxValueIs(live2["B" := 5], "A");
    MaxValueIs(live2["A" := 3], "B");
    CancellableStep(EMPTY_STORE, e0, map[], map[], None);
    var s1 := Apply(EMPTY_STORE, e0);
    CancellableStep(s1, e1, live1, latest1, Some(b8));
    var s2 := Apply(s1, e1);
    DroppedStep(s2, e2, live2, latest2, Some(a10));
    CancellableStep(s2, e3, live2, latest2, Some(a10));
    RunOfFour(e0, e1, e2, e3);
  }

  lemma RunOfFour(e0: Event, e1: Event, e2: Event, e3: Event)
    ensures var s1 := Apply(EMPTY_STORE, e0); var s2 := Apply(s1, e1); var s3 := Apply(s2, e2);
            After([e0, e1, e2, e3]) == Apply(s3, e3)
            && (LegalRun([e0, e1, e2, e3]) <==>
                  Legal(EMPTY_STORE, e0) && Legal(s1, e1) && Legal(s2, e2) && Legal(s3, e3))
  {
    var es := [e0, e1, e2, e3];
    assert es[..3] == [e0, e1, e2] && [e0, e1, e2][..2] == [e0, e1] && [e0, e1][..1] == [e0] && [e0][..0] == [];
    assert After([e0]) == Apply(After([]), e0) && After([e0, e1]) == Apply(After([e0]), e1)
        && After([e0, e1, e2]) == Apply(After([e0, e1]), e2) && After(es) == Apply(After([e0, e1, e2]), e3);
    assert LegalRun([e0]) <==> Legal(EMPTY_STORE, e0);
    assert LegalRun([e0, e1]) <==> LegalRun([e0]) && Legal(After([e0]), e1);
    assert LegalRun([e0, e1, e2]) <==> LegalRun([e0, e1]) && Legal(After([e0, e1]), e2);
  }

  /** A first bid of 1, received at time 10, and a bid of 2 by the same builder, received at time 5 but
      handled later, both without cancellation: the stored time goes back from 10 to 5. */
  lemma OlderBidIsSavedOver()
    ensures var e0, e1 := PlainBid("h1", 1, 10), PlainBid("h2", 2, 5);
            var s1 := Apply(EMPTY_STORE, e0);
            && Inv(EMPTY_STORE) && Legal(EMPTY_STORE, e0) && Legal(s1, e1) && NewestWins(s1, e1)
            && StoredTime(s1, AuctionId(1, "p", "v"), "B") == 10
            && StoredTime(Apply(s1, e1), AuctionId(1, "p", "v"), "B") == 5
  {
    var e0, e1, a := PlainBid("h1", 1, 10), PlainBid("h2", 2, 5), AuctionId(1, "p", "v");
    RunKeepsInv([]);
    MaxValueIs(LiveAfter(EMPTY_STORE, Sub(e0)), "B");
    SavedPlainBid(EMPTY_STORE, e0, a);
    var s1 := Apply(EMPTY_STORE, e0);
    MaxValueIs(LiveAfter(s1, Sub(e1)), "B");
    SavedPlainBid(s1, e1, a);
  }

  function PlainBid(hash: Hash, value: nat, receivedAt: int): Event {
    var req := Request(BidTrace(1, "p", hash, "B", "v", value), Payload(Capella, hash, "p", ""));
    Save(req, receivedAt, false, None, "B")
  }

  lemma SavedPlainBid(s: Store, e: Event, a: AuctionId)
    requires Inv(s) && Legal(s, e) && Competes(e, a) && !e.cancellable
    requires forall b | b in Live(s, a) :: Live(s, a)[b] <= Floor(s, a)
    requires e.req.trace.value > Floor(s, a)
    ensures var s' := Apply(s, e);
            && Inv(s') && StoredTime(s', a, e.req.trace.builder) == e.receivedAt
            && Floor(s', a) == e.req.trace.value && forall b | b in Live(s', a) :: Live(s', a)[b] <= Floor(s', a)
  {
    StepKeepsInv(s, e);
    AcceptedIffAboveFloor(s, Sub(e));
    TimeStep(s, e, a, e.req.trace.builder);
    RecordTakesOver(s, e);
    hide Apply, Inv, Legal;
  }
}
