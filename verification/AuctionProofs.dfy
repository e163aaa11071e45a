/** What every sequential run of saves and deletes keeps. A run is a list of events; each event is
    one whole call with a fresh floor and a sanity-checked, positive bid, as the submission handler
    guarantees. The builder chosen among equal highest bids is part of the event, so the results
    hold for every order in which the bid map is visited.
 */
module AuctionProofs {
  import opened Common
  import opened Auction

  datatype Event =
    | Save(req: Request, receivedAt: int, cancellable: bool, floorArg: Option<nat>, winner: Pubkey)
    | Delete(auction: AuctionId, builder: Pubkey, winner: Pubkey)

  function Sub(e: Event): Submission
    requires e.Save?
  {
    BuildSubmission(e.req, e.receivedAt)
  }

  ghost function Outcome(s: Store, e: Event): (Store, SaveResult)
    requires e.Save?
  {
    if e.req.payload.version == Earlier then (s, UnsupportedVersion)
    else SaveEffect(s, Sub(e), e.cancellable, Effective(e.floorArg, s, Sub(e).Auction()), e.winner)
  }

  ghost function Apply(s: Store, e: Event): Store {
    match e
    case Save(_, _, _, _, _) => Outcome(s, e).0
    case Delete(a, b, w) => Repromote(WithoutBid(s, a, b), a, w).0
  }

  /** The handler rejects zero-valued and mismatched submissions before it saves anything. */
  ghost predicate Legal(s: Store, e: Event) {
    match e
    case Save(req, _, cancellable, floorArg, winner) =>
      var sub := Sub(e);
      && SanityCheck(req).None? && req.trace.value > 0
      && (floorArg.Some? ==> floorArg.value == Floor(s, sub.Auction()))
      && (req.payload.version != Earlier && Decide(s, sub, cancellable, Floor(s, sub.Auction())) == Accepted ==>
            IsTopBid(LiveAfter(s, sub), winner, MaxValue(LiveAfter(s, sub))))
    case Delete(a, b, winner) =>
      var bids := Live(WithoutBid(s, a, b), a);
      bids != map[] ==> IsTopBid(bids, winner, MaxValue(bids))
  }

  ghost function After(es: seq<Event>): Store {
    if es == [] then EMPTY_STORE else Apply(After(es[..|es| - 1]), es[|es| - 1])
  }

  ghost predicate LegalRun(es: seq<Event>) {
    es == [] || (LegalRun(es[..|es| - 1]) && Legal(After(es[..|es| - 1]), es[|es| - 1]))
  }

  // ---------------------------------------------------------------- the invariant

  ghost predicate LiveOk(s: Store, a: AuctionId) {
    forall b | b in Live(s, a) ::
      && Live(s, a)[b] > 0
      && LatestBid(a, b) in s.bids
      && s.bids[LatestBid(a, b)].value == Live(s, a)[b]
  }

  ghost predicate FloorOk(s: Store, a: AuctionId) {
    && (a in s.floorValue <==> FloorBid(a) in s.bids)
    && (a in s.floorValue ==> s.floorValue[a] > 0 && s.bids[FloorBid(a)].value == s.floorValue[a])
  }

  /** The served header's value is the stored top value; it is the best of floor and live bids
      whenever a bid is live, and never below the floor. */
  ghost predicate TopOk(s: Store, a: AuctionId) {
    && (a in s.topValue <==> TopBid(a) in s.bids)
    && (a in s.topValue ==> s.bids[TopBid(a)].value == s.topValue[a])
    && (Live(s, a) != map[] ==> a in s.topValue && s.topValue[a] == Max(Floor(s, a), MaxValue(Live(s, a))))
    && (a in s.floorValue ==> a in s.topValue && s.topValue[a] >= s.floorValue[a])
  }

  ghost predicate AuctionOk(s: Store, a: AuctionId) {
    LiveOk(s, a) && FloorOk(s, a) && TopOk(s, a)
  }

  /** A payload and a trace stored under this key, both naming the key's block. */
  ghost predicate Fetchable(s: Store, k: PayloadId) {
    && FindPayload(s, k).Some? && FindPayload(s, k).value.blockHash == k.blockHash
    && k in s.traces && PayloadId(s.traces[k].slot, s.traces[k].proposer, s.traces[k].blockHash) == k
  }

  /** A payload with the header's own block hash and a matching trace can be fetched for it. */
  ghost predicate Deliverable(s: Store, a: AuctionId, h: Header) {
    Fetchable(s, PayloadId(a.slot, a.proposer, h.blockHash))
  }

  ghost predicate AllDeliverable(s: Store) {
    forall k | k in s.bids :: Deliverable(s, k.auction, s.bids[k])
  }

  ghost predicate PayloadsKeyed(s: Store) {
    forall k | k in s.payloads :: s.payloads[k].blockHash == k.1.blockHash
  }

  ghost predicate Inv(s: Store) {
    (forall a :: AuctionOk(s, a)) && AllDeliverable(s) && PayloadsKeyed(s)
  }

  // ---------------------------------------------------------------- other auctions

  function Lookup<K, V>(m: map<K, V>, k: K): Option<V> {
    if k in m then Some(m[k]) else None
  }

  /** The two stores hold the same auction `a`. */
  ghost predicate SameAuction(s: Store, t: Store, a: AuctionId) {
    && Live(s, a) == Live(t, a)
    && Lookup(s.floorValue, a) == Lookup(t.floorValue, a) && Lookup(s.topValue, a) == Lookup(t.topValue, a)
    && (forall k: BidKey | k.auction == a :: Lookup(s.bids, k) == Lookup(t.bids, k))
  }

  lemma SameAuctionOk(s: Store, t: Store, a: AuctionId)
    requires SameAuction(s, t, a) && AuctionOk(s, a)
    ensures AuctionOk(t, a)
  {
  }

  lemma WithBidLeaves(s: Store, sub: Submission, a: AuctionId)
    requires a != sub.Auction()
    ensures SameAuction(s, WithBid(s, sub), a)
  {
  }

  lemma PromoteLeaves(s: Store, bids: map<Pubkey, nat>, m: AuctionId, floor: nat, winner: Pubkey, a: AuctionId)
    requires a != m
    ensures SameAuction(s, Promote(s, bids, m, floor, winner), a)
  {
  }

  lemma WithFloorLeaves(s: Store, m: AuctionId, h: Header, v: nat, a: AuctionId)
    requires a != m
    ensures SameAuction(s, WithFloor(s, m, h, v), a)
  {
  }

  lemma SameAuctionTransitive(s: Store, t: Store, u: Store, a: AuctionId)
    requires SameAuction(s, t, a) && SameAuction(t, u, a)
    ensures SameAuction(s, u, a)
  {
  }

  /** A save touches only its own auction's live bids, floor and top. */
  lemma SaveLeavesOtherAuctions(s: Store, sub: Submission, cancellable: bool, floor: nat, winner: Pubkey, a: AuctionId)
    requires a != sub.Auction()
    ensures SameAuction(s, SaveEffect(s, sub, cancellable, floor, winner).0, a)
  {
    var m := sub.Auction();
    var s1 := WithBid(s, sub);
    WithBidLeaves(s, sub, a);
    var s2 := Promote(s1, LiveAfter(s, sub), m, floor, winner);
    PromoteLeaves(s1, LiveAfter(s, sub), m, floor, winner, a);
    SameAuctionTransitive(s, s1, s2, a);
    WithFloorLeaves(s2, m, sub.header, sub.trace.value, a);
    SameAuctionTransitive(s, s2, WithFloor(s2, m, sub.header, sub.trace.value), a);
  }

  // ---------------------------------------------------------------- one save

  lemma WithBidKeepsLive(s: Store, sub: Submission, a: AuctionId)
    requires LiveOk(s, a) && a == sub.Auction()
    requires sub.header.value > 0
    ensures LiveOk(WithBid(s, sub), a)
  {
  }

  /** The COPY for a new top always finds its source, and the copied header has the new top value. */
  lemma TopSourceFound(s: Store, a: AuctionId, winner: Pubkey)
    requires LiveOk(s, a) && FloorOk(s, a) && Live(s, a) != map[]
    requires IsTopBid(Live(s, a), winner, MaxValue(Live(s, a)))
    ensures var src := TopSource(Live(s, a), a, Floor(s, a), winner);
            src in s.bids && src.auction == a && s.bids[src].value == Max(MaxValue(Live(s, a)), Floor(s, a))
  {
  }

  lemma PromoteKeeps(s: Store, a: AuctionId, winner: Pubkey)
    requires LiveOk(s, a) && FloorOk(s, a) && Live(s, a) != map[]
    requires IsTopBid(Live(s, a), winner, MaxValue(Live(s, a)))
    ensures AuctionOk(Promote(s, Live(s, a), a, Floor(s, a), winner), a)
  {
    TopSourceFound(s, a, winner);
    var s' := Promote(s, Live(s, a), a, Floor(s, a), winner);
    assert Live(s', a) == Live(s, a) && Floor(s', a) == Floor(s, a);
    assert LiveOk(s', a) && FloorOk(s', a) && TopOk(s', a);
  }

  /** A non-cancellable bid above the floor is live when it becomes the floor, so the top stays right. */
  lemma WithFloorKeeps(s: Store, a: AuctionId, b: Pubkey, h: Header)
    requires AuctionOk(s, a)
    requires b in Live(s, a) && Live(s, a)[b] == h.value > Floor(s, a)
    ensures AuctionOk(WithFloor(s, a, h, h.value), a)
  {
  }

  lemma AcceptKeepsAuction(s: Store, sub: Submission, cancellable: bool, winner: Pubkey)
    requires AuctionOk(s, sub.Auction()) && sub.header.value == sub.trace.value > 0
    requires cancellable || sub.trace.value > Floor(s, sub.Auction())
    requires IsTopBid(LiveAfter(s, sub), winner, MaxValue(LiveAfter(s, sub)))
    ensures var (s', r) := AcceptEffect(s, sub, cancellable, Floor(s, sub.Auction()), winner);
            r.Saved? && AuctionOk(s', sub.Auction())
  {
    var a := sub.Auction();
    var s1 := WithBid(s, sub);
    WithBidKeepsLive(s, sub, a);
    assert Live(s1, a) == LiveAfter(s, sub) && sub.trace.builder in Live(s1, a);
    assert FloorOk(s1, a) && Floor(s1, a) == Floor(s, a);
    TopSourceFound(s1, a, winner);
    PromoteKeeps(s1, a, winner);
    var s2 := Promote(s1, Live(s1, a), a, Floor(s1, a), winner);
    if !cancellable {
      WithFloorKeeps(s2, a, sub.trace.builder, sub.header);
    }
  }

  lemma SaveKeepsOwnAuction(s: Store, e: Event)
    requires e.Save? && e.req.payload.version != Earlier && Legal(s, e)
    requires AuctionOk(s, Sub(e).Auction())
    ensures Outcome(s, e).1.Saved?
    ensures AuctionOk(Apply(s, e), Sub(e).Auction())
  {
    if Decide(s, Sub(e), e.cancellable, Floor(s, Sub(e).Auction())) == Accepted {
      AcceptKeepsAuction(s, Sub(e), e.cancellable, e.winner);
    }
  }

  lemma SaveKeepsAuction(s: Store, e: Event, a: AuctionId)
    requires e.Save? && e.req.payload.version != Earlier && Legal(s, e)
    requires AuctionOk(s, a)
    ensures AuctionOk(Apply(s, e), a)
  {
    var m := Sub(e).Auction();
    if a == m {
      SaveKeepsOwnAuction(s, e);
    } else {
      SaveLeavesOtherAuctions(s, Sub(e), e.cancellable, Effective(e.floorArg, s, m), e.winner, a);
      SameAuctionOk(s, Apply(s, e), a);
    }
  }

  // ---------------------------------------------------------------- one delete

  lemma WithoutBidKeeps(s: Store, a: AuctionId, b: Pubkey)
    requires AuctionOk(s, a)
    ensures var s1 := WithoutBid(s, a, b);
            LiveOk(s1, a) && FloorOk(s1, a) && (Live(s1, a) == map[] ==> TopOk(s1, a))
  {
  }

  lemma DeleteLeavesOtherAuctions(s: Store, e: Event, a: AuctionId)
    requires e.Delete? && a != e.auction
    ensures SameAuction(s, Apply(s, e), a)
  {
    var s1 := WithoutBid(s, e.auction, e.builder);
    assert SameAuction(s, s1, a);
    PromoteLeaves(s1, Live(s1, e.auction), e.auction, Floor(s1, e.auction), e.winner, a);
    SameAuctionTransitive(s, s1, Promote(s1, Live(s1, e.auction), e.auction, Floor(s1, e.auction), e.winner), a);
  }

  lemma DeleteKeepsAuction(s: Store, e: Event, a: AuctionId)
    requires e.Delete? && Legal(s, e)
    requires AuctionOk(s, e.auction) && AuctionOk(s, a)
    ensures Repromote(WithoutBid(s, e.auction, e.builder), e.auction, e.winner).1.None?
    ensures AuctionOk(Apply(s, e), a)
  {
    var s1 := WithoutBid(s, e.auction, e.builder);
    WithoutBidKeeps(s, e.auction, e.builder);
    if Live(s1, e.auction) != map[] {
      TopSourceFound(s1, e.auction, e.winner);
      PromoteKeeps(s1, e.auction, e.winner);
    }
    if a != e.auction {
      DeleteLeavesOtherAuctions(s, e, a);
      SameAuctionOk(s, Apply(s, e), a);
    }
  }

  // ---------------------------------------------------------------- payloads and traces

  lemma WithBidKeepsFetchable(s: Store, sub: Submission, k: PayloadId)
    requires sub.payload.version != Earlier && sub.payload.blockHash == sub.trace.blockHash
    requires PayloadsKeyed(s) && (k == sub.PayloadKey() || Fetchable(s, k))
    ensures Fetchable(WithBid(s, sub), k)
  {
    assert FindPayload(WithBid(s, sub), k).Some?;
  }

  /** Writing a sanity-checked bid makes it deliverable and keeps every held header deliverable. */
  lemma WithBidKeepsDeliverable(s: Store, e: Event)
    requires e.Save? && e.req.payload.version != Earlier && SanityCheck(e.req).None?
    requires AllDeliverable(s) && PayloadsKeyed(s)
    ensures AllDeliverable(WithBid(s, Sub(e))) && PayloadsKeyed(WithBid(s, Sub(e)))
  {
    var sub := Sub(e);
    var s1 := WithBid(s, sub);
    forall k | k in s1.bids
      ensures Deliverable(s1, k.auction, s1.bids[k])
    {
      assert k == LatestBid(sub.Auction(), sub.trace.builder) || Deliverable(s, k.auction, s.bids[k]);
      WithBidKeepsFetchable(s, sub, PayloadId(k.auction.slot, k.auction.proposer, s1.bids[k].blockHash));
    }
  }

  /** Some key of the same auction holds this header. */
  ghost predicate HeldIn(s: Store, a: AuctionId, h: Header) {
    exists k | k in s.bids :: k.auction == a && s.bids[k] == h
  }

  /** Every header of `t` was already held, in its own auction, by `s`. */
  ghost predicate DrawsFrom(t: Store, s: Store) {
    t.payloads == s.payloads && t.traces == s.traces && forall k | k in t.bids :: HeldIn(s, k.auction, t.bids[k])
  }

  lemma DrawnIsDeliverable(t: Store, s: Store)
    requires DrawsFrom(t, s) && AllDeliverable(s)
    ensures AllDeliverable(t)
  {
  }

  /** Promoting only copies a held header of the same auction. */
  lemma PromoteDraws(s: Store, bids: map<Pubkey, nat>, a: AuctionId, floor: nat, winner: Pubkey)
    ensures DrawsFrom(Promote(s, bids, a, floor, winner), s)
  {
  }

  lemma WithFloorDraws(s: Store, a: AuctionId, h: Header, v: nat)
    requires HeldIn(s, a, h)
    ensures DrawsFrom(WithFloor(s, a, h, v), s)
  {
  }

  lemma PromoteKeepsLatest(s: Store, bids: map<Pubkey, nat>, a: AuctionId, floor: nat, winner: Pubkey, b: Pubkey)
    requires LatestBid(a, b) in s.bids
    ensures HeldIn(Promote(s, bids, a, floor, winner), a, s.bids[LatestBid(a, b)])
  {
  }

  lemma AcceptedStores(s: Store, sub: Submission, cancellable: bool, floor: nat, winner: Pubkey)
    ensures var s1 := WithBid(s, sub);
            var s2 := Promote(s1, LiveAfter(s, sub), sub.Auction(), floor, winner);
            AcceptEffect(s, sub, cancellable, floor, winner).0 in
              {s1, s2, WithFloor(s2, sub.Auction(), sub.header, sub.trace.value)}
  {
  }

  lemma AcceptKeepsDeliverable(s: Store, e: Event, floor: nat)
    requires e.Save? && e.req.payload.version != Earlier && SanityCheck(e.req).None?
    requires AllDeliverable(s) && PayloadsKeyed(s)
    ensures AllDeliverable(AcceptEffect(s, Sub(e), e.cancellable, floor, e.winner).0)
  {
    var sub := Sub(e);
    var a := sub.Auction();
    var s1 := WithBid(s, sub);
    var s2 := Promote(s1, LiveAfter(s, sub), a, floor, e.winner);
    var s3 := WithFloor(s2, a, sub.header, sub.trace.value);
    assert AllDeliverable(s1) by { WithBidKeepsDeliverable(s, e); }
    assert AllDeliverable(s2) by {
      PromoteDraws(s1, LiveAfter(s, sub), a, floor, e.winner);
      DrawnIsDeliverable(s2, s1);
    }
    assert AllDeliverable(s3) by {
      PromoteKeepsLatest(s1, LiveAfter(s, sub), a, floor, e.winner, sub.trace.builder);
      WithFloorDraws(s2, a, sub.header, sub.trace.value);
      DrawnIsDeliverable(s3, s2);
    }
    AcceptedStores(s, sub, e.cancellable, floor, e.winner);
  }

  lemma SaveKeepsPayloadsKeyed(s: Store, e: Event)
    requires e.Save? && SanityCheck(e.req).None? && PayloadsKeyed(s)
    ensures PayloadsKeyed(Apply(s, e))
  {
    assert PayloadsKeyed(WithBid(s, Sub(e)));
  }

  lemma SaveKeepsDeliverable(s: Store, e: Event)
    requires e.Save? && e.req.payload.version != Earlier && SanityCheck(e.req).None?
    requires AllDeliverable(s) && PayloadsKeyed(s)
    ensures AllDeliverable(Apply(s, e)) && PayloadsKeyed(Apply(s, e))
  {
    AcceptKeepsDeliverable(s, e, Effective(e.floorArg, s, Sub(e).Auction()));
    SaveKeepsPayloadsKeyed(s, e);
  }

  // ---------------------------------------------------------------- every run

  lemma StepKeepsInv(s: Store, e: Event)
    requires Inv(s) && Legal(s, e)
    ensures Inv(Apply(s, e))
    ensures e.Save? && e.req.payload.version != Earlier ==> Outcome(s, e).1.Saved?
    ensures e.Delete? ==> Repromote(WithoutBid(s, e.auction, e.builder), e.auction, e.winner).1.None?
  {
    if e.Delete? {
      forall a ensures AuctionOk(Apply(s, e), a) { DeleteKeepsAuction(s, e, a); }
      DeleteKeepsAuction(s, e, e.auction);
      var s1 := WithoutBid(s, e.auction, e.builder);
      assert AllDeliverable(s1) by {
        forall k | k in s1.bids
          ensures Deliverable(s1, k.auction, s1.bids[k])
        {
          assert Deliverable(s, k.auction, s.bids[k]);
        }
      }
      PromoteDraws(s1, Live(s1, e.auction), e.auction, Floor(s1, e.auction), e.winner);
      DrawnIsDeliverable(Promote(s1, Live(s1, e.auction), e.auction, Floor(s1, e.auction), e.winner), s1);
    } else if e.req.payload.version != Earlier {
      forall a ensures AuctionOk(Apply(s, e), a) { SaveKeepsAuction(s, e, a); }
      SaveKeepsOwnAuction(s, e);
      SaveKeepsDeliverable(s, e);
    }
  }

  lemma {:induction false} RunKeepsInv(es: seq<Event>)
    requires LegalRun(es)
    ensures Inv(After(es))
  {
    if es == [] {
      forall a ensures AuctionOk(EMPTY_STORE, a) {}
    } else {
      RunKeepsInv(es[..|es| - 1]);
      StepKeepsInv(After(es[..|es| - 1]), es[|es| - 1]);
    }
  }

  /** In every run: while a bid is live the served header is worth exactly the best of the floor and
      all live bids; with no live bid it is still worth at least the floor. */
  lemma TopIsBestOfFloorAndLive(es: seq<Event>, a: AuctionId)
    requires LegalRun(es)
    ensures var s := After(es);
            && (Live(s, a) != map[] ==>
                  && a in s.topValue && TopBid(a) in s.bids
                  && s.topValue[a] == s.bids[TopBid(a)].value == Max(Floor(s, a), MaxValue(Live(s, a))))
            && (Floor(s, a) > 0 ==>
                  && a in s.topValue && TopBid(a) in s.bids
                  && s.topValue[a] == s.bids[TopBid(a)].value >= Floor(s, a))
  {
    RunKeepsInv(es);
    assert AuctionOk(After(es), a);
  }

  /** In every run: whatever header getHeader serves, getPayload can deliver its payload and trace. */
  lemma ServedHeaderIsDeliverable(es: seq<Event>, k: BidKey)
    requires LegalRun(es) && k in After(es).bids
    ensures Deliverable(After(es), k.auction, After(es).bids[k])
  {
    RunKeepsInv(es);
  }

  /** In every run no call fails on a COPY whose source is missing. */
  lemma CopyAlwaysFindsSource(es: seq<Event>, e: Event)
    requires LegalRun(es) && Legal(After(es), e)
    ensures e.Save? ==> !Outcome(After(es), e).1.CopyFailed?
    ensures e.Delete? ==> Repromote(WithoutBid(After(es), e.auction, e.builder), e.auction, e.winner).1.None?
  {
    RunKeepsInv(es);
    StepKeepsInv(After(es), e);
  }
}
