# Verified model of the MEV-Boost relay

The relay runs a sealed-bid auction for every proposal. Builders submit blocks, the relay keeps their bids in
Redis, serves the best header to the proposer and, once the proposer has signed a blinded block, delivers the
payload behind that header. Around the auction sit a rate limiter for block simulations, optimistic processing
with builder demotion, an SSZ codec, the unblinding of the signed block, and several long-running sync loops.

This project models these parts in Dafny and proves what they keep, over every input, every interleaving or
every run. Each part follows one pattern: a specification on values (functions and step machines), the code as
methods over objects and loops proved against it, and lemmas about whole runs of the specification.

| file | what it models |
|---|---|
| `Auction.dfy` | the Redis store, the command pipeline, saving and deleting bids |
| `AuctionProofs.dfy` | the invariant of every sequential run of saves and deletes |
| `AuctionHistory.dfy` | what the state says about the submissions behind it; dropped resubmissions |
| `AuctionServing.dfy` | which header is served after each step, what the response says, what stays untouched |
| `Delivery.dfy` | at most one payload per slot, under WATCH / MULTI / EXEC |
| `RateLimiter.dfy` | the block simulation rate limiter |
| `Optimistic.dfy` | optimistic simulations, the wait group, demotions and the builder cache |
| `Ssz.dfy`, `SszCode.dfy` | the codec of `SubmitBlockRequestV2Optimistic`, as functions and as code |
| `SszReencode.dfy` | which accepted buffers are the encoding of what they decode to |
| `Unblinding.dfy` | the contents check, unblinding and hash tree roots |
| `ValidatorStream.dfy` | the streamed refresh of known validators |
| `Registrations.dfy` | screening and storing validator registrations |
| `Registry.dfy`, `RegistryPool.dfy`, `PubkeysFile.dfy` | enumeration of Vouch keys, its worker pool, the pubkeys file |
| `MissedProposals.dfy` | the missed-proposal cursor of the monitoring exporter |
| `Strings.dfy`, `Common.dfy` | lower case, ordering and sorting of strings; shared datatypes |

`dafny verify dfyconfig.toml` checks the whole project.

## What turned out false

Some properties one would expect do not hold of the code. For each, the model keeps the code as it is, gives an
input on which the property fails, and states exactly when it holds.

- A cancellable resubmission does not always replace the builder's earlier bid
  (`AuctionHistory.ResubmissionReplacesIff`, `AuctionHistory.WithdrawnBidIsServed`).
- The time of a builder's stored bid can go back, since only cancellable bids pass the newest-wins check
  (`AuctionHistory.TimeDropsIff`, `AuctionHistory.OlderBidIsSavedOver`).
- The delivery check reads slot and hash in two round trips, so what it lets through depends on which pairs of
  slot and hash are offered (`Delivery.OnePayloadPerSlotIff`, `Delivery.SharedHashBreaksSafety`).
- A submission of a demoted builder can be processed optimistically after the next slot was prepared, if its
  handler had looked the builder up before (`Optimistic.LateDispatchWasLookedUpEarly`,
  `Optimistic.BarredDispatchIff`, `Optimistic.EarlyLookupIsDispatched`).
- A builder whose row has no builder id is never demoted in the table (`Optimistic.PreparedOptimisticIff`).
- Local cache, Redis and database can disagree after a registration request
  (`Registrations.SavedListAgreesIff`, `Registrations.BatchBreaksAgreement`).
- The beacon client recorded as the last to respond is often another one
  (`ValidatorStream.AnsweringClientIsFirstIff`, `ValidatorStream.WrongClientRecorded`).
- The comment on `EnumeratePubkeys` (services/registry/registry.go:195-199) says that any RPC failure returns an
  error; the worker drops the error of a node walk (services/registry/registry.go:267-271)
  (`RegistryPool.CompleteIff`, `RegistryPool.FailedWalkIsNotReported`).
- A proposal can be counted as missed twice, when a cycle raises or cannot save its cursor, or when the state
  file is emptied by a failing save (`MissedProposals.OncePerSlotIff`, `MissedProposals.LostWorkIsRepeated`,
  `MissedProposals.TruncatedFileIsRepeated`), and the cursor can go back (`MissedProposals.CursorDropsIff`).
- Decoding undoes encoding only while the withdrawals offset fits in 32 bits (`Ssz.RoundTripIff`,
  `Ssz.LargestTransactionsWrap`).
- Encoding undoes decoding only when there is no gap before the header and no transactions part without items
  (`SszReencode.ReencodeIff`, `SszReencode.GapIsForgotten`).

## Model

| member | source | states |
|---|---|---|
| Auction.SanityCheck | services/api/utils.go:49-57 | a submission passes exactly when its trace names the payload's own block hash and parent hash; a wrong block hash is reported first |
| Auction.TopBidValueIsMax | datastore/utils.go:42-52 | whatever order the bid map is visited in, the value found is the maximum of the live bids |
| Auction.GetTopBid | datastore/utils.go:42-52 | the loop returns a builder holding the highest live value, or "" and zero when no bid is positive |
| Auction.FlushBidWrites | datastore/redis.go:647-694 | executing the five queued writes of a bid equals writing payload, header, time, value and trace at once |
| Auction.Pipeliner.Exec | datastore/redis.go:790-802 | queued commands reach the store in order and only now; a final COPY reports whether its source existed |
| Auction.RedisCache.NewBuilderBids | datastore/utils.go:16-29 | reading the bids first executes whatever was queued, then returns the live bids of the auction |
| Auction.RedisCache.GetFloorBidValue | datastore/redis.go:884-902 | returns the stored floor, zero when there is none, after executing whatever was queued |
| Auction.RedisCache.GetBuilderLatestPayloadReceivedAt | datastore/redis.go:542-552 | returns when the builder's stored bid was received, zero when there is none, after executing whatever was queued |
| Auction.RedisCache.SaveBuilderBid | datastore/redis.go:555-585 | queues header, time and value, in that order, without touching the store |
| Auction.RedisCache.QueueBidWrites | datastore/redis.go:647-694 | queues exactly the five writes of one bid, in the code's order |
| Auction.RedisCache.PromoteBest | datastore/redis.go:780-818 | copies the best of live bids and floor over the top bid and sets the top value to its value, or reports the missing source |
| Auction.RedisCache.UpdateTopBid | datastore/redis.go:760-819 | the same with bids and floor given or read back; with no live bid the top bid stays as it was |
| Auction.RedisCache.SetFloor | datastore/redis.go:724-751 | the builder's latest header becomes the floor bid with the given value, or nothing changes when the source is missing |
| Auction.RedisCache.CommitBid | datastore/redis.go:707-751 | once the top value changes, bid, top and floor are written as the value-level effect says |
| Auction.RedisCache.SaveBidAndUpdateTopBid | datastore/redis.go:603-757 | store, result and leftover queue of a whole save: unsupported version, below floor, top unchanged, accepted |
| Auction.RedisCache.DelBuilderBid | datastore/redis.go:862-881 | the bid's value and time are removed at once and the best of what is left is served |
| AuctionProofs.TopSourceFound | datastore/redis.go:780-802 | under the invariant the COPY for a new top finds its source, and the copied header has the new top value |
| AuctionProofs.SaveLeavesOtherAuctions | datastore/redis.go:603-757 | a save leaves live bids, floor and top of every other slot, parent and proposer as they were |
| AuctionProofs.AcceptKeepsAuction | datastore/redis.go:640-757 | an accepted bid keeps the auction invariant and never fails on a COPY |
| AuctionProofs.WithBidKeepsDeliverable | datastore/redis.go:647-694 | writing a sanity-checked bid makes it deliverable and keeps every held header deliverable |
| AuctionProofs.StepKeepsInv | datastore/redis.go:603-881 | every save and delete keeps the store invariant and none fails on a missing COPY source |
| AuctionProofs.RunKeepsInv | datastore/redis.go:603-881 | the invariant holds after every legal run of saves and deletes |
| AuctionProofs.TopIsBestOfFloorAndLive | datastore/redis.go:603-881 | in every run, while a bid is live the served header is worth the stored top value and the maximum of floor and all live bids; with none live it is worth at least the floor |
| AuctionProofs.ServedHeaderIsDeliverable | datastore/redis.go:399-411 | in every run, each header held as live, floor or top bid has a payload with its block hash and a matching trace under its slot, proposer and hash |
| AuctionProofs.CopyAlwaysFindsSource | datastore/redis.go:790-802 | in every run no save or delete returns a failed-copy error |
| AuctionHistory.HandleSubmission | services/api/service.go:2591-2789 | each outcome of the handler's auction part exactly characterised, the newest-wins check included; every store change is one legal event of the run model, made of this very submission |
| AuctionHistory.SaveIsAllOrNothing | datastore/redis.go:633-713 | a save that reports not saved leaves the store exactly unchanged; one that reports saved has written all five parts and the reported top value |
| AuctionHistory.WasSavedIff | datastore/redis.go:633-713 | a submission is saved exactly when its fork is supported, it is cancellable or above the floor, and it is not dropped, all known before the call |
| AuctionHistory.FloorIsHighestSaved | datastore/redis.go:720-751 | in every run the floor equals the maximum of all saved non-cancellable bids |
| AuctionHistory.SavedBidIsNeverUndercut | datastore/redis.go:720-751 | whatever is cancelled or deleted later, the served header is worth at least every saved non-cancellable bid |
| AuctionHistory.TimeStep | datastore/redis.go:563-571 | the stored time of a builder's bid after any event: gone after its deletion, the received time after a submission that will be saved, unchanged otherwise |
| AuctionHistory.TimeDropsIff | services/api/service.go:2766-2785 | over handled submissions the stored time goes back exactly when the bid is deleted, or the builder submits an older non-cancellable bid of a supported fork that is above the floor and not dropped |
| AuctionHistory.TimeNeverDecreases | services/api/service.go:2766-2785 | over every run, for a builder that submits with cancellation, the stored time never decreases between deletions of its bid |
| AuctionHistory.OlderBidIsSavedOver | services/api/service.go:2766-2785 | two handled non-cancellable bids after which the stored time has gone back |
| AuctionHistory.RecordHolderIsEarliestHighest | datastore/utils.go:42-52 | the reference running maximum: its holder is the earliest submission with the highest value |
| AuctionHistory.AcceptedIffAboveFloor | datastore/redis.go:633-637 | without cancellations a save is accepted exactly when it is strictly above the floor |
| AuctionHistory.RefinesRunningMaximum | datastore/redis.go:626-748 | without cancellations the store serves the header of the earliest highest submission, and a bid is saved exactly when it beats every earlier one |
| AuctionHistory.DroppedIff | datastore/redis.go:701-705 | the top value is unchanged exactly when the bid equals the current top, or stays below a top that another builder holds |
| AuctionHistory.ResubmissionReplacesIff | datastore/redis.go:701-705 | a cancellable resubmission is in force afterwards exactly when it is not dropped or repeats the old value; a dropped one changes nothing |
| AuctionHistory.WithdrawnBidIsServed | datastore/redis.go:701-705 | a run of four bids after which the relay serves a bid its builder has lowered |
| AuctionServing.SaveServesBest | datastore/redis.go:640-757 | after every save that goes through, the served header is the latest one of a builder with the highest live bid whenever some live bid reaches the floor, a tie with the floor included; exactly when every live bid is below the floor it is the floor's header |
| AuctionServing.DeleteServesBest | datastore/redis.go:862-881 | the same after every delete that leaves a live bid; when the last one goes, the served header and its value stay |
| AuctionServing.ServedHeaderIsBest | datastore/redis.go:603-881 | the same in every state of every run of saves and deletes, against the floor stored at that time |
| AuctionServing.ResponseIs | datastore/redis.go:603-757 | the response of every legal save: best value of bids and floor before and after, whether it moved, whether the submission is the new best, whether it was saved |
| AuctionServing.SaveChangesOnlyOwn | datastore/redis.go:640-757 | a save that goes through writes its own keys in full and leaves every other bid, header, payload, trace, floor and top alone; the floor bid becomes this header exactly when the bid is not cancellable |
| AuctionServing.DeleteChangesOnlyOwn | datastore/redis.go:862-881 | a delete removes one builder's value and time and can replace the top bid of that auction; everything else stays |
| AuctionServing.NewestForkIsFetched | datastore/redis.go:399-411 | what is fetched for a delivered header is the payload of the latest fork stored under its key, none only if there is none from Capella on |
| AuctionServing.GivenFloorDecides | datastore/redis.go:615-637 | a floor passed in by the caller decides on acceptance, whatever floor is stored |
| Delivery.NextKeepsInv | datastore/redis.go:293-330 | every WATCH, GET and EXEC step, an EXEC whose reply is lost included, keeps the log strictly increasing and equal to the stored keys |
| Delivery.CommitRaisesSlot | datastore/redis.go:321-325 | every committed write strictly raises the stored slot to the call's slot and hash; no other step touches the keys |
| Delivery.TxFailedIff | datastore/redis.go:321-330 | in every interleaving a call's transaction fails exactly when another call has committed since its WATCH |
| Delivery.MovedCallIsOk | datastore/redis.go:298-318 | a read of the slot leaves a slot seen in the log, and a matching hash is one committed at or after that slot |
| Delivery.RunIsExplained | datastore/redis.go:293-330 | in every state of every interleaving, a nil result means that the pair was committed, or that slot and hash were read from two different commits |
| Delivery.TwoPayloadsAreAmbiguous | datastore/redis.go:293-330 | two nil results for one slot with different hashes need an ambiguous set of offered pairs |
| Delivery.SharedHashBreaksSafety | datastore/redis.go:298-318 | whenever two hashes are offered for a slot and one of them for a later slot too, some interleaving delivers both for the first slot |
| Delivery.EmptyHashBreaksSafety | datastore/redis.go:298-318 | the run with two payloads for slot zero when one of them has an empty hash |
| Delivery.SlotZeroBreaksSafety | datastore/redis.go:298-318 | the run with two payloads for slot zero when their hashes are offered for two further slots |
| Delivery.OnePayloadPerSlotIff | datastore/redis.go:293-330 | for every set of offered pairs: no interleaving of any number of calls delivers two payloads for a slot, exactly when the set is not ambiguous |
| Delivery.OnePayloadPerSlot | datastore/redis.go:293-330 | so when a block hash determines its slot, two calls that return nil for one slot carried the same block hash, in every interleaving |
| Delivery.SlotZeroIsNeverDelivered | datastore/redis.go:298-318 | a missing slot key reads as zero, so no call for slot zero with a hash of its own returns nil |
| Delivery.DeliveryKeys.CheckAndSetLastSlotAndHashDelivered | datastore/redis.go:293-330 | an uninterrupted call: which error or nil it returns in each case, and the keys afterwards |
| Delivery.UninterruptedCall | datastore/redis.go:293-330 | the steps of the machine, run without interruption, give the outcome of the method |
| RateLimiter.NextKeepsInv | services/api/blocksim_ratelimiter.go:64-82 | every arrival, wakeup and completion keeps counter, waiting and admitted requests in step |
| RateLimiter.AdmissionIsExact | services/api/blocksim_ratelimiter.go:64-82 | after any interleaving with limit m > 0, min(counter, m) requests are admitted and max(0, counter - m) wait; without a limit nobody waits |
| RateLimiter.InsideIff | services/api/blocksim_ratelimiter.go:64-82 | in every interleaving exactly the requests that have arrived and not yet finished are inside, waiting or admitted |
| RateLimiter.SomeoneCanStep | services/api/blocksim_ratelimiter.go:70-82 | no wakeup is lost: while a request is inside, some admitted request can step |
| RateLimiter.DrainIsBounded | services/api/blocksim_ratelimiter.go:70-82 | once arrivals stop, every schedule ends within a bound known beforehand |
| RateLimiter.StuckMeansDrained | services/api/blocksim_ratelimiter.go:70-82 | a schedule that cannot continue has served every request |
| RateLimiter.Drains | services/api/blocksim_ratelimiter.go:70-82 | from every reachable state some schedule serves everyone |
| RateLimiter.BlockSimulationRateLimiter.constructor | services/api/blocksim_ratelimiter.go:47-62 | a new limiter is empty and satisfies the invariant |
| RateLimiter.BlockSimulationRateLimiter.Enter | services/api/blocksim_ratelimiter.go:70-75 | the entry section is the arrival step; it passes at once exactly when there is no limit or room below it |
| RateLimiter.BlockSimulationRateLimiter.LeaveWait | services/api/blocksim_ratelimiter.go:72-75 | a woken request goes on without a second look at the counter, and the invariant holds |
| RateLimiter.BlockSimulationRateLimiter.Leave | services/api/blocksim_ratelimiter.go:77-82 | the deferred section is the completion step: it signals some waiter whenever there is one |
| RateLimiter.BlockSimulationRateLimiter.CurrentCounter | services/api/blocksim_ratelimiter.go:141-144 | the counter is the number of waiting and active requests |
| Optimistic.ClearedIff | database/database.go:520-531 | a demotion clears the optimistic flag of exactly the rows with the builder's non-empty id and changes nothing else in any row |
| Optimistic.FaultIff | services/api/service.go:775-824 | a simulation result counts as a fault exactly when there is a validation error with none of the three forgiven texts in it, or a request error without validation error |
| Optimistic.WaitGroupCounts | services/api/service.go:798-802 | every step keeps the wait group equal to the number of unfinished simulations |
| Optimistic.NextKeepsInv | services/api/service.go:733-841 | every step keeps what each simulation has achieved by its phase and what each wait may rely on |
| Optimistic.RunKeepsInv | services/api/service.go:733-841 | the invariant holds in every state of every run with demotion enabled |
| Optimistic.FaultIsSettled | services/api/service.go:798-841 | when a wait has returned, every faulty submission dispatched before it has finished all its work |
| Optimistic.WaitSeesDemotions | services/api/service.go:1728-1732 | after the wait of getPayload the demotion row of every such submission is in the table |
| Optimistic.ReportDemotesIff | services/api/service.go:798-841 | over every run, once a wait has returned, a submission dispatched before it has had its builder's rows cleared and its demotion row written exactly when its reported errors demote |
| Optimistic.DisabledNeverDemotes | services/api/service.go:733-736 | with demotion disabled no run ever clears a row or writes a demotion row |
| Optimistic.PreparedCacheReflectsDemotions | services/api/service.go:1015-1048 | when prepareBuildersForSlot completes, for every simulation result that demotes, the demotion row exists and no pubkey with the builder's non-empty id is optimistic in table or new cache |
| Optimistic.PreparedOptimisticIff | services/api/service.go:1015-1048 | a pubkey with the faulty builder's id is optimistic in the new cache exactly when that id is empty and its row was there and optimistic from the start |
| Optimistic.FaultBarsSameEntry | services/api/service.go:826-828 | from a fault on, before any table is written and even with demotion disabled, no handler holding the same cache entry is let through optimistically |
| Optimistic.OnlyNextSlotIsOptimistic | services/api/service.go:1015-1025 | over every run, until the next prepare, only submissions for the slot after the announced head are processed optimistically, also when the builder table could not be read |
| Optimistic.AllSlotsDispatchesAll | services/api/service.go:2725-2736 | with the all-slots flag a looked-up submission is processed optimistically exactly when its value is positive |
| Optimistic.LookupIff | services/api/service.go:2248-2276 | a submission is stopped at the lookup exactly when the current cache holds its builder as blacklisted |
| Optimistic.CollateralIsRead | services/api/service.go:1037-1044 | every decimal number is read back as itself, with a sign or without |
| Optimistic.CollateralIsNumberIff | services/api/service.go:1037-1044 | a collateral is a number exactly when it is digits behind an optional sign, and counts as zero otherwise |
| Optimistic.NewRowIsPlain | database/database.go:474-496 | a row added by a first submission stays without id and is never optimistic |
| Optimistic.FirstSubmissionAddsRow | database/database.go:474-496 | a first submission adds a row without id, status and collateral; a later one leaves the row as it is |
| Optimistic.RequestWasLookedUp | services/api/service.go:2578-2582 | the entry a handler decides on is the one it looked up, from the cache installed at that time |
| Optimistic.StaysBarred | services/api/service.go:1015-1048 | once barred, an id stays barred in the table and in every cache from then on |
| Optimistic.BarredDispatchIff | services/api/service.go:2592-2733 | a submission with a barred id is dispatched exactly when its handler holds an optimistic entry of an earlier cache, with a positive value that its collateral covers and for the open slot |
| Optimistic.LateDispatchWasLookedUpEarly | services/api/service.go:2578-2736 | after that prepare, a submission with that id is processed optimistically only if its handler looked the builder up before the new cache was installed |
| Optimistic.EarlyLookupIsDispatched | services/api/service.go:2578-2736 | for any two pubkeys of one builder and any positive bids its collateral covers, and for any simulation result that demotes, a run in which such a submission is dispatched after the prepare |
| Optimistic.Database.SetBlockBuilderIDStatusIsOptimistic | database/database.go:520-531 | clears the flag on every row with the builder's id, or changes nothing and fails when there is no row or no id |
| Optimistic.Database.InsertBuilderDemotion | database/database.go:559-590 | adds exactly the submission's demotion row |
| Optimistic.RelayAPI.InstallBuilders | services/api/service.go:1015-1048 | the loop installs exactly the table's statuses and collaterals, an unreadable collateral as zero, and the next optimistic slot |
| Optimistic.RelayAPI.DemoteBuilder | services/api/service.go:733-774 | clears the builder's rows and records the demotion even when clearing fails |
| Ssz.OffsetRoundTrip | common/types.go:703-721 | a written offset reads back as its low 32 bits |
| Ssz.OffsetByte | common/types.go:703-721 | byte i of an offset is n / 256^i mod 256, least significant first |
| Ssz.DecodeLength | common/types.go:598-604 | the item count of a transaction list is always below 2^30 |
| Ssz.ListSizeIsEncodedSize | common/types.go:771-775 | the size counted per transaction is the length of the encoded list |
| Ssz.EncodedLengthIsSize | common/types.go:762-781 | every accepted request encodes to exactly SizeSSZ bytes |
| Ssz.TransactionsRoundTrip | common/types.go:598-619 | decoding an encoded transaction list returns it, for every list below 4 GiB |
| Ssz.WithdrawalsRoundTrip | common/types.go:621-637 | decoding encoded withdrawals returns them, up to 16 |
| Ssz.EncodedLayout | common/types.go:691-759 | where every part of an encoding lies and what the three offsets hold |
| Ssz.RoundTrip | common/types.go:547-639 | full decoding of an accepted encoding returns the request when its offsets fit in 32 bits |
| Ssz.WrappedOffsetIsRefused | common/types.go:582-637 | when the withdrawals offset does not fit, decoding the encoding is an error |
| Ssz.LargestTransactionsWrap | common/types.go:691-759 | with any message and header, four transactions of 2^30 bytes are accepted by the encoder and refused by the decoder |
| Ssz.RoundTripIff | common/types.go:547-639 | full decoding of an accepted encoding returns the request exactly when the withdrawals offset is below 2^32 |
| Ssz.RoundTripBelow4GiB | common/types.go:547-639 | so it does for every accepted request whose size is below 2^32 |
| Ssz.EncodeAcceptsIff | common/types.go:691-759 | encoding is refused exactly for what the library refuses, more than 1073741824 transactions, one of more than 1073741824 bytes, or more than 16 withdrawals |
| Ssz.TransactionsDecodeIff | common/types.go:598-619 | bytes decode to these transactions exactly when they are empty or hold a table of as many offsets as the first one says, in order, with each transaction between its offset and the next |
| Ssz.WithdrawalsDecodeIff | common/types.go:621-637 | bytes decode to these withdrawals exactly when they are at most 16 records of 44 bytes, each of which decodes to its withdrawal |
| Ssz.DecodeIff | common/types.go:547-639 | a buffer decodes to a request exactly when its three offsets are in order from 344 on and each part decodes to the request's part |
| Ssz.LayoutErrors | common/types.go:547-639 | which error a buffer gets for its size, its offsets, and the length of its withdrawals part |
| Ssz.HeaderOnlyAgrees | common/types.go:642-688 | whenever the full decoder accepts, the header-only decoder returns the same message, header and signature, also on just the bytes before the transactions |
| Ssz.HeaderOnlyIff | common/types.go:642-688 | the header-only decoder accepts exactly the buffers whose fixed part and header are in place, whatever follows |
| SszReencode.ItemsReencode | common/types.go:598-619 | a decoded transactions part is the encoding of its transactions exactly when it is empty or announces one |
| SszReencode.ReencodeIff | common/types.go:547-759 | encoding a decoded request gives the same bytes exactly when the header offset is 344 and the transactions part is empty or has a non-zero first offset |
| SszReencode.GapIsForgotten | common/types.go:566-572 | for every encodable request, a buffer with one byte before the header that decodes to it and is not its encoding |
| SszCode.AppendOffsets | common/types.go:733-739 | the loop with a running offset appends the offset table of the list |
| SszCode.AppendTransactions | common/types.go:740-746 | appends every transaction in order, or refuses a list with one that is too long |
| SszCode.AppendWithdrawals | common/types.go:748-757 | appends the encoded withdrawals in order, or returns the first error |
| SszCode.AddListSize | common/types.go:714-719 | the loop adds the encoded size of the list |
| SszCode.UnmarshalDynamic | common/types.go:598-619 | the loop cuts the items at consecutive offsets as the recursive decoder does, with the same errors |
| SszCode.UnmarshalWithdrawals | common/types.go:621-637 | the loop decodes 44-byte withdrawals as the recursive decoder does, with the same errors |
| SszCode.SubmitBlockRequest.SizeSSZ | common/types.go:762-781 | returns the closed-form size |
| SszCode.SubmitBlockRequest.MarshalSSZTo | common/types.go:691-759 | appends exactly the encoding to any buffer, or returns its error |
| SszCode.SubmitBlockRequest.AppendVariablePart | common/types.go:728-758 | appends list and withdrawals, with the errors in the code's order |
| SszCode.SubmitBlockRequest.UnmarshalSSZ | common/types.go:547-639 | succeeds with the decoded request in the fields exactly when the decoder accepts, and returns its error otherwise |
| SszCode.SubmitBlockRequest.UnmarshalSSZHeaderOnly | common/types.go:642-688 | fills message, header and signature and leaves the lists alone |
| SszCode.MarshalThenUnmarshal | common/types.go:542-781 | marshalling onto any buffer and unmarshalling what was appended restores every accepted request below 4 GiB |
| Unblinding.MerkleizeInjective | services/api/utils.go:68-197 | with a collision-free node hash, equally long chunk lists with one root are equal |
| Unblinding.MerkleizeIsLevels | services/api/utils.go:68-197 | the recursive tree with virtual padding has the root found by padding with zero chunks and hashing pairs level by level |
| Unblinding.ListRootIs | services/api/utils.go:83-100 | a list root is the level-by-level root of its item roots, padded to the limit, hashed with the length |
| Unblinding.HeaderRootIs | services/api/utils.go:83-100 | a header root is the level-by-level root of its 15 or 17 fields in order |
| Unblinding.ListRootInjective | services/api/utils.go:83-100 | with collision-free hashing a list root determines every item, their order and their number |
| Unblinding.HeaderPinsPayload | services/api/utils.go:83-100 | with collision-free hashing two payloads of one fork whose headers have one root are equal, transactions, withdrawals and every field |
| Unblinding.CheckPassesIff | services/api/utils.go:68-197 | when the blinded header was computed from a payload, the contents check passes exactly for that very payload, of the same supported fork and, from Deneb on, with the block's commitments in order; which error otherwise |
| Unblinding.HeaderSummarizesPayload | services/api/utils.go:83-100 | a payload and the header computed from it have one hash tree root |
| Unblinding.UnblindOkIff | common/types_spec.go:253-285 | unblinding succeeds exactly for a supported fork with, from Deneb on, as many blobs as commitments |
| Unblinding.ShapesAre | common/types_spec.go:253-402 | which blocks and payloads the results speak of: commitments from Deneb on, execution requests from Electra on, and the list limits 1048576, 16 and 4096 |
| Unblinding.UnblindKeepsTheRest | common/types_spec.go:287-402 | for each fork, unblinding keeps every field of the block but the execution part, and the signature, so the root is the same for the same execution root |
| Unblinding.UnblindedBlockKeepsRoot | common/types_spec.go:253-402 | if contents check and unblinding succeed, the full block has the blinded block's root and signature; from Deneb on, one blob per commitment and the bundle's commitments in order |
| Unblinding.BlockRootPinsExecution | common/types_spec.go:253-402 | with a collision-free hash the block root determines the root of its execution part |
| Unblinding.HeaderCheckIffRootKept | services/api/utils.go:68-197 | with a collision-free hash the header comparison passes exactly when the full block keeps the blinded block's root |
| Unblinding.FullRootInjective | common/types_spec.go:253-402 | with collision-free hashing full blocks of one fork with one root are equal in every field, so a signature is over one full block only |
| ValidatorStream.MapsHoldEntries | datastore/known_validators_stream.go:51-55 | for distinct validators both maps hold every entry, pubkeys in lower case |
| ValidatorStream.MapsHoldOnlyEntries | datastore/known_validators_stream.go:51-55 | the maps hold nothing but entries of the list |
| ValidatorStream.MapsAreInverse | datastore/known_validators_stream.go:51-55 | for distinct validators the two maps are inverse to each other |
| ValidatorStream.LastEntryWins | datastore/known_validators_stream.go:51-55 | for any list, each map holds the last entry of its key |
| ValidatorStream.CompleteResponseDecodes | beaconclient/state_validators_stream.go:110-156 | a complete response decodes to exactly its entries, whatever follows the array |
| ValidatorStream.CutIsAnError | beaconclient/state_validators_stream.go:110-156 | every cut of a well-formed response before the closing bracket is an error, between two entries and inside one |
| ValidatorStream.SuccessMeansComplete | beaconclient/state_validators_stream.go:110-156 | success means the response was complete: every value between the opening bracket and a closing delimiter was read as an entry |
| ValidatorStream.DecodedIff | beaconclient/state_validators_stream.go:110-156 | a response decodes to these entries exactly when it has a first "data" token, an opening bracket, these entries and a closing delimiter |
| ValidatorStream.FailureKinds | beaconclient/state_validators_stream.go:110-156 | which error a response without a data array gets; the collector is reset exactly when the array was opened |
| ValidatorStream.Collector.Reset | datastore/known_validators_stream.go:46-49 | empties both maps |
| ValidatorStream.Collector.Add | datastore/known_validators_stream.go:51-55 | adds one entry to both maps |
| ValidatorStream.DecodeStateValidators | beaconclient/state_validators_stream.go:110-156 | error and collector contents for every token stream; the collector is untouched unless the array was reached |
| ValidatorStream.FirstSuccess | beaconclient/state_validators_stream.go:55-79 | the reference choice: the first node in order that delivers a complete response |
| ValidatorStream.ByLastResponse | beaconclient/multi_beacon_client.go:221-232 | the configured list with the recorded client swapped to the front |
| ValidatorStream.ByLeastUsed | beaconclient/multi_beacon_client.go:237-244 | that list backwards, position by position |
| ValidatorStream.MultiBeaconClient.StreamStateValidators | beaconclient/state_validators_stream.go:55-79 | a nil result leaves exactly the first successful node's complete list in the collector, whatever failed nodes left there; which error otherwise |
| ValidatorStream.AnsweringClientIsFirstIff | beaconclient/state_validators_stream.go:71-72 | the client that answered is at the front next time exactly when it holds the same position in the configured list |
| ValidatorStream.WrongClientRecorded | beaconclient/multi_beacon_client.go:219-245 | with two nodes and nothing recorded, the second is asked and the first is recorded |
| ValidatorStream.EmptyMapsIff | datastore/known_validators_stream.go:94-96 | the maps are empty exactly for an empty list of validators |
| ValidatorStream.AddBuffered | datastore/known_validators_stream.go:88-91 | the buffered loop builds the maps of its entries |
| ValidatorStream.SourceIs | datastore/known_validators_stream.go:61-98 | with streaming on and a node that can stream, the first complete response is used and the buffered one never; the buffered one exactly otherwise |
| ValidatorStream.FetchKnownValidators | datastore/known_validators_stream.go:61-98 | returns the maps of exactly one complete, non-empty list, streamed or buffered, or the error |
| ValidatorStream.StreamedEqualsBuffered | datastore/known_validators_stream.go:61-98 | streaming a complete response gives the same list as the buffered path, however many nodes broke off before |
| Registrations.Latest | database/database.go:143-151 | the row with the highest timestamp, none exactly for a validator without rows |
| Registrations.LatestIsLast | database/database.go:130-151 | in a proper history the latest row is the last one inserted |
| Registrations.SaveKeepsHistory | database/database.go:130-141 | one save keeps every validator's rows a history |
| Registrations.AnyOrderOfSavesIsAHistory | database/database.go:130-141 | for any order of saves each pubkey's rows have strictly increasing timestamps and adjacent rows differ in fee recipient or gas limit |
| Registrations.SaveAgreesIff | datastore/datastore.go:239-256 | after a save into any store, cache, Redis and latest row are equal exactly when the row was inserted or repeats the latest message |
| Registrations.SaveLeavesOthersAgreeing | datastore/datastore.go:239-256 | saving one validator's registration changes no other validator's agreement |
| Registrations.SavedListAgreesIff | datastore/datastore.go:239-256 | after any list saved into any store, the three agree for a validator in it exactly when its last registration was inserted or repeats what was then the latest row |
| Registrations.SavedListLeavesOthers | datastore/datastore.go:239-256 | and for a validator not in the list exactly when they agreed before |
| Registrations.CheckAndSaveKeepsAgreement | services/api/service.go:3279-3300 | a registration that passes the check and is saved at once keeps every validator's copies in agreement |
| Registrations.SequentialRegistrationsAgree | services/api/service.go:3279-3300 | if each accepted registration is saved before the next check, the three agree for every validator after every run |
| Registrations.BatchBreaksAgreement | services/api/service.go:3259-3324 | whenever one request holds two different new registrations of a validator, the later one no newer, cache and Redis end up with the stale one |
| Registrations.Datastore.GetCachedValidatorRegistration | datastore/datastore.go:211-229 | local cache first, then Redis; copying into the local cache never changes what is found |
| Registrations.Datastore.SaveValidatorRegistration | datastore/datastore.go:239-256 | all three writes on success; which of them have happened after each failure |
| Registrations.Datastore.ProcessRegistrations | services/api/service.go:3259-3380 | the loop returns the new registrations in order or the first error, and saves nothing |
| Registrations.ScreeningIs | services/api/service.go:3259-3380 | a request is accepted exactly when every registration passes its checks in turn; the returned list is its fresh ones in order, and otherwise the error is that of the first one that fails |
| Registry.RenderIsCanonical | services/registry/registry.go:370-372 | distinct keys are written differently and every key is written in lower case |
| Registry.RenderSpells | services/registry/registry.go:370-372 | a key is written as 0x and two lower-case hexadecimal digits a byte, high digit first |
| Registry.WalkReadsList | services/registry/registry.go:318-375 | the k-th key of a walk is the k-th answer of the node's list |
| Registry.WalkEndsAtFirst | services/registry/registry.go:318-375 | a walk reads exactly up to the first index whose batch fails or whose answer is not a non-empty key, and reports an error exactly when its batch failed or its answer is broken |
| Registry.ReachedIff | services/registry/registry.go:318-375 | an index is read exactly when nothing up to it ends the walk |
| Registry.CleanWalkIsComplete | services/registry/registry.go:318-375 | a list without blanks, errors or failed batches is walked to its end |
| Registry.KeySet.WalkNodePubkeys | services/registry/registry.go:318-375 | the batched walk adds exactly the keys of the index-by-index walk; with n keys read it sends exactly n/64 + 1 requests, however it ends |
| Registry.KeySet.ReadBatch | services/registry/registry.go:344-374 | one batch either ends the walk with its keys read and its error, or adds 64 keys |
| RegistryPool.StepKeepsInv | services/registry/registry.go:253-285 | every step of every worker keeps the shared set sound and every node walked or being walked |
| RegistryPool.FinalSetIsUnion | services/registry/registry.go:253-285 | in every interleaving of any number of workers that ends uncancelled, the set is exactly the union of what the walks read |
| RegistryPool.StepUsesWork | services/registry/registry.go:253-285 | every step uses up work, so no schedule goes on forever |
| RegistryPool.RunIsBounded | services/registry/registry.go:253-285 | every run is no longer than the work there is at its start |
| RegistryPool.NeverStuck | services/registry/registry.go:253-285 | while the wait group is held some worker can go on |
| RegistryPool.Collect | services/registry/registry.go:286-296 | an error exactly when cancelled, otherwise the sorted duplicate-free list of the set |
| RegistryPool.ReturnsUnion | services/registry/registry.go:225-296 | the returned list holds exactly the keys that some node lists before anything that ends its walk |
| RegistryPool.ScheduleDoesNotMatter | services/registry/registry.go:225-296 | any two schedules with any numbers of workers return the same list |
| RegistryPool.CompleteIff | services/registry/registry.go:264-273 | no listed key is missing exactly when every key listed behind a node's first failed batch, error, revert or blank is listed before these by some node |
| RegistryPool.CleanNodesAreComplete | services/registry/registry.go:225-296 | without failures and blanks every listed key of every node is returned |
| RegistryPool.FailedWalkIsNotReported | services/registry/registry.go:264-273 | for any key, a node whose walk fails before it gives a run that returns an empty list and no error |
| RegistryPool.VouchRegistry.SetPubkeys | services/registry/registry.go:394-402 | the set becomes the lower-cased keys of the list |
| RegistryPool.ReturnedKeysAreLower | services/registry/registry.go:370-372 | enumeration returns keys that lower-casing does not change |
| RegistryPool.SyncedMembershipIff | services/registry/registry.go:385-402 | after a sync IsVouchPubkey holds of a query in any letter case exactly when some node lists that very key before anything that ends its walk |
| PubkeysFile.LoadPubkeysFile | services/registry/registry.go:404-418 | the loop returns the trimmed lines that are neither blank nor comments, or an error when the file cannot be read |
| PubkeysFile.WritePubkeysFile | services/registry/registry.go:423-440 | the text spells out, line by line, the sorted duplicate-free list of the lower-cased keys |
| PubkeysFile.LoadedLinesAreLoadable | services/registry/registry.go:404-418 | whatever the file holds, every key read from it survives being written and read |
| PubkeysFile.RoundTripIff | services/registry/registry.go:404-440 | reading a written list gives it back exactly when every key is non-empty, has no newline, no white space at either end, and no leading `#` |
| PubkeysFile.WriteReadWrite | services/registry/registry.go:404-440 | for such keys write-then-read gives the sorted lower-case list, and writing that gives the same file |
| PubkeysFile.RewrittenFileLoadsTheSame | services/registry/registry.go:404-440 | any file, once loaded and rewritten, loads to the list that was written |
| PubkeysFile.ExportedEnumerationLoads | services/registry/registry.go:225-440 | an exported enumeration is loaded back key for key |
| PubkeysFile.LoadMeansKeys | services/registry/registry.go:404-418 | every text is a sequence of key, blank and comment lines, and loading it returns exactly the keys of the key lines, in order |
| PubkeysFile.TextIsKeyLines | services/registry/registry.go:423-440 | the written text is one line per key with nothing around it, and a final newline |
| Strings.LowerEqualIff | services/registry/registry.go:385-402 | two strings have one lower-case form exactly when they agree letter by letter up to ASCII case |
| Strings.LeqIff | services/registry/registry.go:286-296 | the order of the sorted lists is lexicographic by character code: the first difference decides, and a prefix comes first |
| MissedProposals.SweepIsJudged | ops/monitoring/gate_exporter.py:134-168 | a cycle examines consecutive slots up to the head; a watched one is missed exactly when a reachable node answered other than 200, or 200 without block data |
| MissedProposals.SweepEnds | ops/monitoring/gate_exporter.py:146-168 | a cycle goes on exactly as far as it can decide, and raises exactly when that is what stops it |
| MissedProposals.ExaminesIff | ops/monitoring/gate_exporter.py:144-168 | which slots a cycle examines, from the answers alone |
| MissedProposals.RaisesIff | ops/monitoring/gate_exporter.py:158-164 | when a cycle raises, from the answers alone |
| MissedProposals.JudgeIs | ops/monitoring/gate_exporter.py:149-167 | the verdict on one slot in terms of the reachability, the status and the body of the answer |
| MissedProposals.CounterIsExact | ops/monitoring/gate_exporter.py:134-206 | in every run, whatever raised and however saves went, the counter is the number of missed slots among those examined |
| MissedProposals.HistoryAgrees | ops/monitoring/gate_exporter.py:134-206 | every examined slot is recorded as the node reported it in one of the cycles |
| MissedProposals.CycleKeepsOnceIff | ops/monitoring/gate_exporter.py:134-206 | a cycle keeps each slot examined at most once exactly when no slot examined before lies above the loaded cursor and inside the window with everything from the cycle's first slot up to it decided |
| MissedProposals.OncePerSlotIff | ops/monitoring/gate_exporter.py:134-206 | over every run, with outages, exceptions, failing saves and any head movement, each slot is examined at most once exactly when that holds of every cycle and the cursor it loads |
| MissedProposals.CycleKeepsOrderIff | ops/monitoring/gate_exporter.py:134-206 | a cycle keeps the history in slot order exactly when it examines nothing or starts above everything examined so far |
| MissedProposals.CursorDropsIff | ops/monitoring/gate_exporter.py:93-107 | a cycle moves the cursor back exactly when it gets to saving it and the save empties the file |
| MissedProposals.CyclesStayInOrder | ops/monitoring/gate_exporter.py:134-206 | in every run whose cycles keep their work on record, slots are examined in order, at most once, and none beyond the cursor |
| MissedProposals.NoGapWithinWindow | ops/monitoring/gate_exporter.py:144-168 | while the head stays within the window and the node answers, a cycle examines every slot from the cursor to the head |
| MissedProposals.LostWorkIsRepeated | ops/monitoring/gate_exporter.py:134-206 | whenever work is not saved, the next cycle that sees the same answers examines and counts those slots again |
| MissedProposals.TruncatedFileIsRepeated | ops/monitoring/gate_exporter.py:93-107 | once the state file is emptied, a cycle that reaches any slot examined before examines it again |
| MissedProposals.GateExporter.SaveCursor | ops/monitoring/gate_exporter.py:101-107 | what the next load returns after a save that works, cannot open the file, or empties it |
| MissedProposals.GateExporter.CheckMissedProposals | ops/monitoring/gate_exporter.py:134-168 | next cursor or exception, counter and slots examined, for every cursor, head, watched set and set of answers |
| MissedProposals.GateExporter.Examine | ops/monitoring/gate_exporter.py:149-167 | the verdict on one slot; the counter rises exactly for a watched slot whose status and body show no block |
| MissedProposals.GateExporter.RunEvaluation | ops/monitoring/gate_exporter.py:201-206 | a whole cycle: the cursor is saved only when the check returns |

## Left out

- HTTP plumbing, logging, metrics, gzip, content negotiation, profiling and the website: no property lives there.
- Redis, Postgres, memcached, JSON-RPC and beacon clients: only the key, table and command semantics the models rest on.
- BLS signatures and SHA-256: signatures are opaque values, node hashes an abstract function, assumed collision-free only where a lemma says so.
- The SSZ types of the library (bid trace, payload header, withdrawal) are abstract codecs with an assumed round trip, for re-encoding in the other direction too; the helpers of fastssz are modelled from what their callers rely on.
- Nil message and header pointers in `MarshalSSZTo` and `SizeSSZ`, which the code replaces by empty values.
- Key expiry in Redis and wall-clock sleeps.
- Concurrent saves to one auction and a floor that went stale during simulation: auction calls are atomic steps with a fresh floor.
- Transport errors of single Redis commands inside a save: an execution either runs or the call is not modelled.
- Auction.SanityCheck: the error for missing fields, which the handler has already returned by then (services/api/service.go:2524-2529).
- AuctionHistory.HandleSubmission: simulation and signature checks lie outside, and the reads and the save are one step.
- Auction.RedisCache.DelBuilderBid: the two HDEL calls and the update are one step, and a failing HDEL is not modelled.
- Delivery.OnePayloadPerSlot: about calls that return nil; the handler also goes on after other Redis errors (services/api/service.go:1848).
- Delivery.DeliveryKeys.CheckAndSetLastSlotAndHashDelivered: one uninterrupted call; interleavings are covered by the step machine.
- Optimistic.PreparedCacheReflectsDemotions: assumes demotion enabled, successful database writes and no operator edits; dispatch and the wait group's Add are one step although the code adds inside the goroutine (services/api/service.go:801), and storing the slot and reloading the cache are one step.
- The handler's refusal of low-priority builders behind a feature flag: a handler may stop after its lookup anyway.
- Optimistic.RelayAPI.DemoteBuilder: without the feature flag that disables demotion, which is a setting of the step machine.
- Unblinding.UnblindedBlockKeepsRoot: payload lists within the limits of their types; the library's errors for oversized lists are not modelled.
- ValidatorStream.DecodeStateValidators: works on JSON tokens; the lexing of bytes into tokens is not modelled, and any closing delimiter counts as the end of the array, as the code does not look at the token.
- Registrations.Datastore.ProcessRegistrations: the JSON and SSZ loops are one method, with timestamps in whole seconds as both encodings carry them (common/types.go:841); signature checks and the processing queue behind it are not modelled.
- Several relay instances with their own local registration caches.
- RegistryPool.ReturnsUnion: starts after the calls that fetch the node list; a cancelled context is an error, and what a cancelled worker has added is then discarded.
- PubkeysFile.RoundTripIff: ASCII case mapping and Latin-1 white space instead of full Unicode.
- MissedProposals.OncePerSlotIff: the duties cache is part of the node's answers, and nothing but the exporter writes the state file.
- The relay gates of the exporter, command-line tools, environment parsing, migrations, network constants and mocks: configuration or display only.
