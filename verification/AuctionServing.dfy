/** What one save or delete does to everything in the store: which header is served, what the response says,
    and what stays exactly as it was. Stated on the stored bids and the floor alone.
 */
module AuctionServing {
  import opened Common
  import opened Auction
  import opened AuctionProofs
  import opened AuctionHistory

  // ---------------------------------------------------------------- which header is served

  /** No live bid is higher than this builder's. */
  ghost predicate Leads(bids: map<Pubkey, nat>, b: Pubkey) {
    b in bids && forall x | x in bids :: bids[x] <= bids[b]
  }

  ghost predicate AllBelow(bids: map<Pubkey, nat>, floor: nat) {
    forall b | b in bids :: bids[b] < floor
  }

  /** The top bid is the latest header of a leading builder, unless every live bid is below the floor: then
      it is the floor's header. */
  ghost predicate ServesBest(s: Store, a: AuctionId, floor: nat, floorHeader: Option<Header>) {
    if AllBelow(Live(s, a), floor) then Lookup(s.bids, TopBid(a)) == floorHeader != None
    else exists b | Leads(Live(s, a), b) ::
           Lookup(s.bids, LatestBid(a, b)) != None && Lookup(s.bids, TopBid(a)) == Lookup(s.bids, LatestBid(a, b))
  }

  lemma PromoteServesBest(s: Store, a: AuctionId, winner: Pubkey)
    requires LiveOk(s, a) && FloorOk(s, a) && Live(s, a) != map[]
    requires IsTopBid(Live(s, a), winner, MaxValue(Live(s, a)))
    ensures ServesBest(Promote(s, Live(s, a), a, Floor(s, a), winner), a, Floor(s, a), Lookup(s.bids, FloorBid(a)))
  {
    var s' := Promote(s, Live(s, a), a, Floor(s, a), winner);
    TopSourceFound(s, a, winner);
    var b :| b in Live(s, a);
    assert Live(s', a) == Live(s, a) && 0 < Live(s, a)[b] <= MaxValue(Live(s, a));
    if Floor(s, a) > MaxValue(Live(s, a)) {
      assert AllBelow(Live(s, a), Floor(s, a));
    } else {
      assert Leads(Live(s', a), winner);
      assert Lookup(s'.bids, TopBid(a)) == Lookup(s'.bids, LatestBid(a, winner)) == Some(s.bids[LatestBid(a, winner)]);
    }
  }

  lemma FloorKeepsServed(s: Store, a: AuctionId, h: Header, v: nat, floor: nat, floorHeader: Option<Header>)
    requires ServesBest(s, a, floor, floorHeader)
    ensures ServesBest(WithFloor(s, a, h, v), a, floor, floorHeader)
  {
    var s' := WithFloor(s, a, h, v);
    assert Live(s', a) == Live(s, a);
    assert forall b :: Lookup(s'.bids, LatestBid(a, b)) == Lookup(s.bids, LatestBid(a, b));
  }

  /** After every save that goes through, the served header is the latest one of a builder with the highest
      live bid; only if every live bid is below the floor is it the floor's. */
  lemma SaveServesBest(s: Store, e: Event)
    requires Inv(s) && Legal(s, e) && WillBeSaved(s, e)
    ensures var a := Sub(e).Auction();
            ServesBest(Apply(s, e), a, Floor(s, a), Lookup(s.bids, FloorBid(a)))
  {
    var sub := Sub(e);
    var a := sub.Auction();
    WasSavedIff(s, e);
    assert AuctionOk(s, a);
    hide Inv, WillBeSaved;
    var s1 := WithBid(s, sub);
    WithBidKeepsLive(s, sub, a);
    assert Live(s1, a) == LiveAfter(s, sub) && sub.trace.builder in Live(s1, a);
    assert FloorOk(s1, a) && Floor(s1, a) == Floor(s, a) && Lookup(s1.bids, FloorBid(a)) == Lookup(s.bids, FloorBid(a));
    SavedIsAccepted(s, e);
    PromoteServesBest(s1, a, e.winner);
    var s2 := Promote(s1, Live(s1, a), a, Floor(s1, a), e.winner);
    FloorKeepsServed(s2, a, sub.header, sub.trace.value, Floor(s, a), Lookup(s.bids, FloorBid(a)));
    hide ServesBest, AuctionOk, Legal;
  }

  /** The stores a saved submission goes through. */
  lemma SavedIsAccepted(s: Store, e: Event)
    requires Legal(s, e) && WasSaved(s, e)
    ensures var sub := Sub(e);
            var s1 := WithBid(s, sub);
            var s2 := Promote(s1, LiveAfter(s, sub), sub.Auction(), Floor(s, sub.Auction()), e.winner);
            && IsTopBid(LiveAfter(s, sub), e.winner, MaxValue(LiveAfter(s, sub)))
            && Apply(s, e) == (if e.cancellable then s2 else WithFloor(s2, sub.Auction(), sub.header, sub.trace.value))
            && Outcome(s, e).1.response == AcceptedResponse(s, sub, Floor(s, sub.Auction()))
  {
    hide WithBid, Promote, LiveAfter, IsTopBid, MaxValue, ReferenceTop, AcceptedResponse;
  }

  /** Serving the best of what is left, when something is left. */
  lemma RepromoteServesBest(s: Store, a: AuctionId, winner: Pubkey)
    requires LiveOk(s, a) && FloorOk(s, a)
    requires Live(s, a) != map[] ==> IsTopBid(Live(s, a), winner, MaxValue(Live(s, a)))
    ensures var s' := Repromote(s, a, winner).0;
            && Live(s', a) == Live(s, a)
            && if Live(s, a) != map[] then ServesBest(s', a, Floor(s, a), Lookup(s.bids, FloorBid(a)))
               else s' == s
  {
    RepromoteMovesTop(s, a, winner);
    if Live(s, a) != map[] {
      PromoteServesBest(s, a, winner);
    }
    hide LiveOk, FloorOk, ServesBest, Promote, IsTopBid, MaxValue;
  }

  /** After every delete that leaves a live bid the same holds; when it takes the last one, what was served
      stays served. */
  lemma DeleteServesBest(s: Store, e: Event)
    requires Inv(s) && Legal(s, e) && e.Delete?
    ensures var s', a := Apply(s, e), e.auction;
            if Live(s', a) != map[] then ServesBest(s', a, Floor(s, a), Lookup(s.bids, FloorBid(a)))
            else
              && Lookup(s'.bids, TopBid(a)) == Lookup(s.bids, TopBid(a))
              && Lookup(s'.topValue, a) == Lookup(s.topValue, a)
  {
    var a, s1 := e.auction, WithoutBid(s, e.auction, e.builder);
    assert AuctionOk(s, a);
    hide Inv, Repromote, IsTopBid, MaxValue, ServesBest;
    WithoutBidKeeps(s, a, e.builder);
    RepromoteServesBest(s1, a, e.winner);
    hide AuctionOk, LiveOk, FloorOk;
  }

  /** While a bid is live, the best is served. */
  ghost predicate ServedOk(s: Store, a: AuctionId) {
    Live(s, a) != map[] ==> ServesBest(s, a, Floor(s, a), Lookup(s.bids, FloorBid(a)))
  }

  lemma SameAuctionServed(s: Store, t: Store, a: AuctionId)
    requires SameAuction(s, t, a) && ServedOk(s, a)
    ensures ServedOk(t, a)
  {
    assert Lookup(s.bids, TopBid(a)) == Lookup(t.bids, TopBid(a));
    assert Lookup(s.bids, FloorBid(a)) == Lookup(t.bids, FloorBid(a)) && Floor(s, a) == Floor(t, a);
    assert forall b :: Lookup(s.bids, LatestBid(a, b)) == Lookup(t.bids, LatestBid(a, b));
    hide Leads, AllBelow;
  }

  /** Raising the floor to a live bid does not change what the best is. */
  lemma RaisedFloorServed(s: Store, a: AuctionId, b: Pubkey, floor: nat, floorHeader: Option<Header>)
    requires ServesBest(s, a, floor, floorHeader)
    requires b in Live(s, a) && Live(s, a)[b] == Floor(s, a) > floor
    ensures ServedOk(s, a)
  {
    assert !AllBelow(Live(s, a), floor) && !AllBelow(Live(s, a), Floor(s, a));
    hide Leads, AllBelow;
  }

  lemma SavedKeepsServed(s: Store, e: Event)
    requires Inv(s) && Legal(s, e) && WillBeSaved(s, e)
    ensures ServedOk(Apply(s, e), Sub(e).Auction())
  {
    var s', a := Apply(s, e), Sub(e).Auction();
    SaveServesBest(s, e);
    SaveChangesOnlyOwn(s, e);
    WasSavedIff(s, e);
    FloorStep(s, e, a);
    hide Inv, Legal, Apply, WillBeSaved, OnlyOwnKeys, ServesBest;
    if !e.cancellable {
      RaisedFloorServed(s', a, e.req.trace.builder, Floor(s, a), Lookup(s.bids, FloorBid(a)));
    }
  }

  lemma UnsavedLeavesStore(s: Store, e: Event)
    requires Inv(s) && Legal(s, e) && e.Save? && !WillBeSaved(s, e)
    ensures Apply(s, e) == s
  {
    if e.req.payload.version != Earlier {
      WasSavedIff(s, e);
      SaveKeepsOwnAuction(s, e);
      hide Inv, WillBeSaved, AuctionOk;
      UnsavedResponse(s, e);
    }
  }

  lemma StepKeepsServed(s: Store, e: Event, a: AuctionId)
    requires Inv(s) && Legal(s, e) && ServedOk(s, a)
    ensures ServedOk(Apply(s, e), a)
  {
    if e.Delete? {
      if a == e.auction {
        DeleteServesBest(s, e);
        DeleteChangesOnlyOwn(s, e);
      } else {
        DeleteLeavesOtherAuctions(s, e, a);
        SameAuctionServed(s, Apply(s, e), a);
      }
    } else if !WillBeSaved(s, e) {
      UnsavedLeavesStore(s, e);
    } else if a == Sub(e).Auction() {
      SavedKeepsServed(s, e);
    } else {
      SaveLeavesOtherAuctions(s, Sub(e), e.cancellable, Effective(e.floorArg, s, Sub(e).Auction()), e.winner, a);
      SameAuctionServed(s, Apply(s, e), a);
    }
    hide Inv, Legal, ServesBest, WillBeSaved, SaveEffect, SameAuction;
  }

  /** In every run, while some bid is live, the served header is the latest one of a builder with the highest
      live bid; it is the floor's exactly when every live bid is below the floor. */
  lemma {:induction false} ServedHeaderIsBest(es: seq<Event>, a: AuctionId)
    requires LegalRun(es)
    ensures ServedOk(After(es), a)
  {
    if es != [] {
      var before := es[..|es| - 1];
      ServedHeaderIsBest(before, a);
      RunKeepsInv(before);
      StepKeepsServed(After(before), es[|es| - 1], a);
      hide Inv, Legal, ServedOk, Apply;
    }
  }

  // ---------------------------------------------------------------- what the response says

  /** The better of the floor and the best of these bids. */
  ghost predicate IsBest(v: nat, bids: map<Pubkey, nat>, floor: nat) {
    && floor <= v && (forall b | b in bids :: bids[b] <= v)
    && (v == floor || exists b | b in bids :: bids[b] == v)
  }

  lemma MaxIsBest(bids: map<Pubkey, nat>, floor: nat)
    ensures IsBest(Max(MaxValue(bids), floor), bids, floor)
  {
  }

  lemma AcceptedResponseIs(s: Store, sub: Submission, floor: nat)
    ensures var r := AcceptedResponse(s, sub, floor);
            var bids := Live(s, sub.Auction());
            && IsBest(r.prevTopBidValue, bids, floor)
            && IsBest(r.topBidValue, bids[sub.trace.builder := sub.trace.value], floor)
            && (r.wasTopBidUpdated <==> r.topBidValue != r.prevTopBidValue)
            && (r.isNewTopBid <==> sub.trace.value == r.topBidValue) && r.wasBidSaved
  {
    MaxIsBest(Live(s, sub.Auction()), floor);
    MaxIsBest(LiveAfter(s, sub), floor);
  }

  /** The response of every legal save: the best value before and after, whether it moved, and whether the
      submission is the new best. */
  lemma ResponseIs(s: Store, e: Event)
    requires Inv(s) && Legal(s, e) && e.Save? && e.req.payload.version != Earlier
    ensures Outcome(s, e).1.Saved?
    ensures var r, a, b := Outcome(s, e).1.response, Sub(e).Auction(), e.req.trace.builder;
            var bids, floor := Live(s, a), Floor(s, a);
            && IsBest(r.prevTopBidValue, bids, floor) && (r.wasBidSaved <==> WillBeSaved(s, e))
            && if WillBeSaved(s, e) then
                 && IsBest(r.topBidValue, bids[b := e.req.trace.value], floor)
                 && (r.wasTopBidUpdated <==> r.topBidValue != r.prevTopBidValue)
                 && (r.isNewTopBid <==> e.req.trace.value == r.topBidValue)
               else r.topBidValue == r.prevTopBidValue && !r.wasTopBidUpdated && !r.isNewTopBid
  {
    var sub := Sub(e);
    var a := sub.Auction();
    WasSavedIff(s, e);
    assert Outcome(s, e).1.Saved? by { SaveKeepsOwnAuction(s, e); }
    hide Inv, WillBeSaved;
    if WasSaved(s, e) {
      SavedIsAccepted(s, e);
      AcceptedResponseIs(s, sub, Floor(s, a));
    } else {
      UnsavedResponse(s, e);
      MaxIsBest(Live(s, a), Floor(s, a));
    }
    hide IsBest, Legal, SaveEffect;
  }

  lemma UnsavedResponse(s: Store, e: Event)
    requires Legal(s, e) && e.Save? && e.req.payload.version != Earlier && Outcome(s, e).1.Saved? && !WasSaved(s, e)
    ensures var top := ReferenceTop(s, Sub(e).Auction(), Floor(s, Sub(e).Auction()));
            Apply(s, e) == s && Outcome(s, e).1.response == SaveResponse(false, false, false, top, top)
  {
    hide WithBid, Promote, LiveAfter, IsTopBid, MaxValue, ReferenceTop;
  }

  // ---------------------------------------------------------------- what stays as it was

  function LiveValue(s: Store, a: AuctionId, b: Pubkey): Option<nat> {
    Lookup(Live(s, a), b)
  }

  /** Every key outside the submission's own, and every other builder's bid, is left alone. */
  ghost predicate OnlyOwnKeys(s: Store, t: Store, sub: Submission) {
    var a, b := sub.Auction(), sub.trace.builder;
    && (forall k: BidKey | k !in {LatestBid(a, b), TopBid(a), FloorBid(a)} :: Lookup(t.bids, k) == Lookup(s.bids, k))
    && (forall x, y | (x, y) != (a, b) :: LiveValue(t, x, y) == LiveValue(s, x, y))
    && (forall k | k != (sub.payload.version, sub.PayloadKey()) :: Lookup(t.payloads, k) == Lookup(s.payloads, k))
    && (forall k | k != sub.PayloadKey() :: Lookup(t.traces, k) == Lookup(s.traces, k))
    && (forall x | x != a ::
          Lookup(t.floorValue, x) == Lookup(s.floorValue, x) && Lookup(t.topValue, x) == Lookup(s.topValue, x))
  }

  lemma WithBidOnlyOwn(s: Store, sub: Submission)
    ensures OnlyOwnKeys(s, WithBid(s, sub), sub)
  {
  }

  lemma TopOnlyOwn(s: Store, t: Store, sub: Submission, h: Header, v: nat)
    requires OnlyOwnKeys(s, t, sub)
    ensures OnlyOwnKeys(s, WithTop(t, sub.Auction(), h, v), sub)
  {
    var t' := WithTop(t, sub.Auction(), h, v);
    assert forall x, y :: LiveValue(t', x, y) == LiveValue(t, x, y);
    hide LiveValue;
  }

  lemma FloorOnlyOwn(s: Store, t: Store, sub: Submission, h: Header, v: nat)
    requires OnlyOwnKeys(s, t, sub)
    ensures OnlyOwnKeys(s, WithFloor(t, sub.Auction(), h, v), sub)
  {
    var t' := WithFloor(t, sub.Auction(), h, v);
    assert forall x, y :: LiveValue(t', x, y) == LiveValue(t, x, y);
    hide LiveValue;
  }

  /** A save that goes through touches its own keys and no others; the floor becomes this very header when
      the bid is not cancellable, and stays otherwise. */
  lemma SaveChangesOnlyOwn(s: Store, e: Event)
    requires Inv(s) && Legal(s, e) && WillBeSaved(s, e)
    ensures OnlyOwnKeys(s, Apply(s, e), Sub(e)) && FullyWritten(Apply(s, e), Sub(e))
    ensures var a := Sub(e).Auction();
            Lookup(Apply(s, e).bids, FloorBid(a)) ==
            if e.cancellable then Lookup(s.bids, FloorBid(a)) else Some(Sub(e).header)
  {
    var sub := Sub(e);
    var a := sub.Auction();
    WasSavedIff(s, e);
    assert FullyWritten(Apply(s, e), sub) by {
      SaveIsAllOrNothing(s, sub, e.cancellable, Effective(e.floorArg, s, a), e.winner);
    }
    hide Inv, WillBeSaved, FullyWritten;
    SavedIsAccepted(s, e);
    WithBidOnlyOwn(s, sub);
    var s1 := WithBid(s, sub);
    var s2 := Promote(s1, LiveAfter(s, sub), a, Floor(s, a), e.winner);
    PromoteOnlyOwn(s, s1, sub, LiveAfter(s, sub), Floor(s, a), e.winner);
    FloorOnlyOwn(s, s2, sub, sub.header, sub.trace.value);
    hide OnlyOwnKeys, Legal, Outcome;
  }

  lemma PromoteOnlyOwn(s: Store, t: Store, sub: Submission, bids: map<Pubkey, nat>, floor: nat, winner: Pubkey)
    requires OnlyOwnKeys(s, t, sub)
    ensures OnlyOwnKeys(s, Promote(t, bids, sub.Auction(), floor, winner), sub)
    ensures Lookup(Promote(t, bids, sub.Auction(), floor, winner).bids, FloorBid(sub.Auction())) ==
            Lookup(t.bids, FloorBid(sub.Auction()))
  {
    var a, src := sub.Auction(), TopSource(bids, sub.Auction(), floor, winner);
    if src in t.bids {
      TopOnlyOwn(s, t, sub, t.bids[src], Max(MaxValue(bids), floor));
    }
    hide OnlyOwnKeys, MaxValue, TopSource;
  }

  /** The second store differs from the first at most in the top bid of this auction. */
  ghost predicate OnlyTopMoves(s: Store, t: Store, a: AuctionId) {
    && (forall k: BidKey | k != TopBid(a) :: Lookup(t.bids, k) == Lookup(s.bids, k))
    && (forall x | x != a :: Lookup(t.topValue, x) == Lookup(s.topValue, x))
    && t.values == s.values && t.times == s.times
    && t.floorValue == s.floorValue && t.payloads == s.payloads && t.traces == s.traces
  }

  lemma RepromoteMovesTop(s: Store, a: AuctionId, winner: Pubkey)
    ensures OnlyTopMoves(s, Repromote(s, a, winner).0, a)
  {
    hide MaxValue, TopSource;
  }

  lemma WithoutBidRemoves(s: Store, a: AuctionId, b: Pubkey)
    ensures var t := WithoutBid(s, a, b);
            && LiveValue(t, a, b) == None && StoredTime(t, a, b) == 0
            && (forall x, y | (x, y) != (a, b) ::
                  LiveValue(t, x, y) == LiveValue(s, x, y) && StoredTime(t, x, y) == StoredTime(s, x, y))
  {
  }

  /** A delete removes one builder's value and time and may replace the top bid of that auction; every other
      bid, header, payload, trace and floor stays. */
  lemma DeleteChangesOnlyOwn(s: Store, e: Event)
    requires e.Delete?
    ensures var t, a, b := Apply(s, e), e.auction, e.builder;
            && LiveValue(t, a, b) == None && StoredTime(t, a, b) == 0
            && (forall x, y | (x, y) != (a, b) ::
                  LiveValue(t, x, y) == LiveValue(s, x, y) && StoredTime(t, x, y) == StoredTime(s, x, y))
            && (forall k: BidKey | k != TopBid(a) :: Lookup(t.bids, k) == Lookup(s.bids, k))
            && (forall x | x != a :: Lookup(t.topValue, x) == Lookup(s.topValue, x))
            && t.floorValue == s.floorValue && t.payloads == s.payloads && t.traces == s.traces
  {
    var t, s1 := Apply(s, e), WithoutBid(s, e.auction, e.builder);
    WithoutBidRemoves(s, e.auction, e.builder);
    RepromoteMovesTop(s1, e.auction, e.winner);
    hide Repromote;
    assert forall x, y :: LiveValue(t, x, y) == LiveValue(s1, x, y) && StoredTime(t, x, y) == StoredTime(s1, x, y);
    hide LiveValue, StoredTime;
  }

  // ---------------------------------------------------------------- fetching a payload

  function Rank(v: Version): nat {
    match v
    case Earlier => 0
    case Capella => 1
    case Deneb => 2
    case Electra => 3
    case Fulu => 4
  }

  /** What is fetched is the stored payload of the latest fork under the key, if there is any from Capella on. */
  lemma NewestForkIsFetched(s: Store, k: PayloadId)
    ensures match FindPayload(s, k)
            case None => forall v | v != Earlier :: (v, k) !in s.payloads
            case Some(p) =>
              exists v | v != Earlier && (v, k) in s.payloads ::
                s.payloads[(v, k)] == p && forall u | (u, k) in s.payloads :: Rank(u) <= Rank(v)
  {
    if FindPayload(s, k).Some? {
      var v := if (Fulu, k) in s.payloads then Fulu else if (Electra, k) in s.payloads then Electra
               else if (Deneb, k) in s.payloads then Deneb else Capella;
      assert v != Earlier && (v, k) in s.payloads && s.payloads[(v, k)] == FindPayload(s, k).value;
    }
  }

  /** A floor passed in by the caller decides, whatever floor is stored. */
  lemma GivenFloorDecides(s: Store, sub: Submission, cancellable: bool, given: nat)
    ensures Decide(s, sub, cancellable, Effective(Some(given), s, sub.Auction())) == Accepted <==>
              (cancellable || sub.trace.value > given) && !WillBeDropped(s, sub, given)
  {
    DroppedIff(s, sub, given);
  }
}
