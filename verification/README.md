# Reservation and settlement engine: a verified model

This project models how the booking server keeps its promises about rooms and money, and proves them in Dafny.
`dafny verify dfyconfig.toml` checks everything. Nothing here runs the server: the results are about the model, and the
table below says which source lines each of them models.

## What is modelled

**Rooms.** The inventory table has one row per room and date with the counters `total`, `booked` and `held`
(`Inventory.dfy`). Holds take rooms for fifteen minutes; a hold is released, expires, or is completed by a booking; a
booking expires, is confirmed by a webhook, fails, is cancelled or is refunded. `Reservations.dfy` defines each
operation as one all-or-nothing step on the state of all tables, and a run as any sequence of steps, clock ticks
included. `ReservationServer.dfy` gives the same operations as methods that update their tables in place, each proved
equal to its step, so every law of runs is a law of the methods. `ReservationLaws.dfy` holds the safety invariant,
`ReservationIdempotency.dfy` the law of idempotency keys, `ReservationTerms.dfy` whose holds and bookings there are and
for how long, `ReservationStatuses.dfy` which event leads a booking where, `ReservationPayments.dfy` the race between
expiry and payment, `ReservationPrices.dfy` what is charged against what was quoted, `ReservationAccounts.dfy` what
every account of the ledger is made of, `ReservationRefunds.dfy` how often a payment can be paid back,
`ReservationPayouts.dfy` which bookings can be paid out and what that leaves on the hotel's account, `PayoutRuns.dfy`
runs of the engine and of payouts over one ledger, `ExpiryScans.dfy` the periodic scanners. `Scenarios.dfy` holds short
runs from an empty table that show the failing cases to be reachable.

**Money.** Cents and exact rates with half-up rounding (`Money.dfy`), quotes (`Pricing.dfy`), the double-entry ledger
(`Ledger.dfy`), payouts to hotel owners (`Settlement.dfy`).

**Beside them.** The canonical serialiser that idempotency relies on, with the parser that inverts it (`StableJson.dfy`,
grammar of sections 4, 5 and 7 of RFC 8259); local time to UTC and the cancellation deadline (`ZonedTime.dfy`); the
availability queries (`Availability.dfy`); the sliding-window limiter of socket events (`RateLimiter.dfy`).

## What the environment must do

Three things the code relies on without checking are stated in `Reservations.Orderly`: a hold request names each room
once, a refund notification names rooms only while its booking's have not been given back, and then those, and the
hotel's own updates of a row neither overwrite the booked counter nor lower the total below what is taken (prices and
statuses may change freely). Each is shown to be exactly what is needed:
`Inventory.CheckProtectsCapacityExactlyForDistinctRooms`, `ReservationLaws.RefundKeepsExactly` and
`ReservationLaws.UpdateKeepsExactlySafe` are equivalences. Three further assumptions shape the steps: the availability
check and the hold that follows it are one step, each database transaction is one step, and no inventory row is created
or deleted during a run. The laws of idempotency keys, of prices, of terms and statuses, of refunds, of payouts and of
the ledger, and the payment protocol's own invariant, do not need orderly runs at all.

The state carries three records that the server does not keep: `roomsReturned` on a booking, `log`, one entry per return
of inventory, and `late`, one entry per payment that came after expiry, with the provider's answer to its refund. No
operation reads them; they only let the laws count.

## Where the code differs from what its comments promise

The model follows the code.

- `handleRefundSucceeded` is described as idempotent (server/services/payment.service.js:545). It gives back the rooms it is
  told to every time it is called: `ReservationLaws.RefundKeepsExactly`, `ReservationLaws.RepeatedRefundTakesTwice`.
- `handlePaymentSucceeded` is described as safe to call repeatedly (server/services/payment.service.js:211). Repeating it
  changes nothing exactly if the booking was not expired at the first call or its transaction was completed already:
  `ReservationRefunds.RepeatIsSafeExactly`. For an expired booking every repetition asks the provider for another refund
  and overwrites the record of the last one (`ReservationRefunds.LateRefundIsForgotten`). Whatever repeats, a booking that
  nothing fails, cancels or refunds is never both expired and confirmed (`ReservationPayments.PaidOrExpired`); after a
  refund a repeated notification confirms the booking again without its rooms:
  `ReservationPayments.WebhookConfirmsWithoutRooms` says exactly when, and `ReservationPayouts.BecomesUnbackedExactly` that
  nothing else makes such a booking eligible for a payout.
- A cancelled booking cannot be cancelled again, so a payment seems to be paid back once. There are two ways around that.
  A repeated success webhook, or a failure webhook, reopens the booking; and a booking that expired can still be cancelled,
  also after its late payment has been paid back at once. `ReservationRefunds.NoFurtherRefundExactly` says in which
  statuses no more can be paid back, `ReservationRefunds.RefundsWithinPayment` that nothing else leads to more than was
  charged, `ReservationRefunds.LateGuestIsPaidBackTwice` is the second way from an empty table.
- A refund can be posted for a payment that is not: `ReservationRefunds.RefundWithoutPaymentExactly`.
- Several refunds can reverse more fee than was earned; `Ledger.NextRefundSafeExactly` is the exact guard,
  `ReservationRefunds.EngineOverdrawsExactly` shows that the engine reaches every such list of refunds.
- `checkAvailabilityForHold` is described as checking each room and date (server/repositories/room_inventory.repository.js:425).
  A date counts as covered as soon as one of the rooms has a row for it:
  `Inventory.CheckBacksEveryRoomExactlyForOneRoomType`.
- The two ways to turn a hold into a booking price it differently: the request quotes again, the payment intent charges the
  hold's total. They agree exactly when the price changes since the hold was made cancel out on its rooms and nights:
  `ReservationPrices.PathsAgreeExactly`.
- The search does not subtract held rooms, the hold does: `Availability.SearchIgnoresHeldRooms` says exactly when they agree.
- The ledger recognises the fee on the total. A booking request stores the commission on the subtotal for the payout to
  withhold, a payment intent stores none at all, and a booking that was refunded and paid again by a repeated webhook is
  paid out in full. What a payout leaves of a booking's credit is exactly the stored commission, less the fee recognised,
  less the hotel's share of its refunds: `ReservationPayouts.PayoutLeavesExactly`, and for a payment and a payout alone
  `Settlement.SettlementClosesExactly`.
- Nothing looks at what a hotel's account holds before a refund or a payout is posted:
  `PayoutRuns.HotelOwesExactly`, `PayoutRuns.GoesNegativeExactly`.
- The limiter of socket events forgets the oldest socket when it has seen more than 1000:
  `RateLimiter.LimitHoldsExactlyUpToCapacity`.
- A payout whose transfer and posting went through is marked failed when the notification does not go out:
  `Settlement.TransferOutcome`.

## Model

| member | source | states |
|---|---|---|
| Money.RoundDivIs | server/services/ledger.service.js:273-275 | a rounded quotient is the one integer within half a unit of the exact value, halves going up |
| Money.NormalizedAtMostWhole | server/services/ledger.service.js:261-271 | the normalised fee rate is at most 100% if and only if the configured number is at most 100 |
| Money.NormalizedRateIs | server/services/ledger.service.js:261-271 | a configured number is the rate itself up to 1, a percentage above 1, and no rate at all if it is not positive |
| Money.PercentIsFractionExactly | server/services/pricing.service.js:130-134 | p and p / 100 earn the same fee on every amount if and only if p is at most 100 and not 1 |
| Money.ShareMonotone | server/services/ledger.service.js:20-22 | a larger amount never has the smaller fee |
| Money.RemainderMonotone | server/services/ledger.service.js:20-22 | at a rate of at most 100%, a larger amount never leaves the smaller remainder for the hotel |
| Money.ShareWithin | server/services/ledger.service.js:20-22 | at a rate of at most 100%, the fee of an amount lies between nothing and the amount |
| Money.ShareSplit | server/services/pricing.service.js:54-60 | splitting an amount in two moves its rounded share by at most one cent |
| Money.DriftOfParts | server/services/ledger.service.js:79-81 | the rounded shares of n parts differ from the share of their sum by at most (n + 1) / 2 cents |
| Inventory.RoomInventory.Increment | server/repositories/room_inventory.repository.js:144-166 | one row, if it exists, moves by the amount in one counter, and no other row changes |
| Inventory.RoomInventory.Update | server/repositories/room_inventory.repository.js:110-135 | the given columns of one row, if it exists, are overwritten; its held counter and every other row stay as they were |
| Inventory.RoomInventory.Batch | server/repositories/room_inventory.repository.js:202-239 | the nested room and night loops move every existing row by exactly what the request claims from it, in one counter and one direction |
| Inventory.RoomInventory.CheckAvailabilityForHold | server/repositories/room_inventory.repository.js:431-472 | the scan and the date set answer the declarative condition: every row found is open and has room, every night has a row |
| Inventory.Nights | server/services/pricing.service.js:110-124 | the date loop lists each night from check-in up to, not including, check-out, once and in order |
| Inventory.BatchMovesExactly | server/repositories/room_inventory.repository.js:219-228 | when each room is named once, a row moves by the quantity of its own entry on the nights of the stay and every other row stays as it was |
| Inventory.DownUndoesUp | server/repositories/room_inventory.repository.js:249-285 | a decrement batch undoes the increment batch with the same arguments, on every table |
| Inventory.ConversionKeepsOccupancy | server/services/booking.service.js:178-190 | turning a hold into a booking moves rooms from held to booked and leaves the sum and the availability of every row unchanged |
| Inventory.DistinctHoldFits | server/repositories/room_inventory.repository.js:431-472 | an accepted request that names each room once can be held without exceeding any row's total |
| Inventory.CheckProtectsCapacityExactlyForDistinctRooms | server/repositories/room_inventory.repository.js:434-446 | the check prevents overbooking on every table if and only if the request names each room once |
| Inventory.CheckBacksEveryRoomExactlyForOneRoomType | server/repositories/room_inventory.repository.js:448-467 | acceptance implies a row for every requested room and night, on every table, if and only if the request names one room type |
| Pricing.QuotedDistinctRooms | server/services/pricing.service.js:10-13 | the quantities read back from the Map are those of the request when each room is named once |
| Pricing.ComputeQuote | server/services/pricing.service.js:5-76 | the accumulator loops return the closed form of the quote, with its error cases |
| Pricing.QuoteRoom | server/services/pricing.service.js:35-58 | the inner loop returns the nights of one room and the sum of price times quantity over them |
| Pricing.QuoteAddsUp | server/services/pricing.service.js:28-60 | nights add up to room subtotals, room subtotals to the subtotal, subtotal, tax and service fee to the total |
| Pricing.QuoteSays | server/services/pricing.service.js:5-76 | a quote refuses empty lists and empty ranges only; it shows each night once, at its row's price or at nothing, for the last quantity named; tax, service fee and commission are their own rates of the subtotal, rounded |
| Pricing.SubtotalSplits | server/services/pricing.service.js:32-58 | splitting a stay at any date leaves the subtotal unchanged |
| Pricing.SplitStay | server/services/pricing.service.js:54-60 | splitting a stay in two keeps the subtotal and moves the total by at most two cents |
| Pricing.SplitStayBoundIsTight | server/services/pricing.service.js:54-60 | a stay for which the total moves by exactly two cents |
| Pricing.PaysForWhatIsTaken | server/services/pricing.service.js:28-60 | a request naming each room once is charged, row by row, the price of exactly the rooms that the batch loops take from that row |
| Ledger.LedgerStore.PostBalancedEntries | server/services/ledger.service.js:173-212 | the loop posts the positive lines of a new group if they balance, returns an existing group untouched, and leaves nothing behind on failure |
| Ledger.LedgerStore.FindOrCreateAccount | server/repositories/ledger.repository.js:9-41 | the account exists afterwards and no other is added or lost |
| Ledger.PostOnce | server/services/ledger.service.js:174-180 | a first posting files exactly the kept lines under its key and disturbs no other group; posting again under the key, with any lines, changes nothing |
| Ledger.PaymentAcceptedExactly | server/services/ledger.service.js:183-231 | a payment's lines pass the balance check if and only if the amount is positive and the rounded fee does not exceed it |
| Ledger.RefundAcceptedExactly | server/services/ledger.service.js:183-231 | the same equivalence for a refund's lines |
| Ledger.PayoutAcceptedExactly | server/services/ledger.service.js:154-167 | a payout posts if and only if its amount is positive |
| Ledger.ConfiguredRateAccepted | server/services/ledger.service.js:261-271 | every configured rate from 0 to 100, normalised, gives fee splits that every positive amount passes |
| Ledger.FullRefundInvertsPayment | server/services/ledger.service.js:79-81 | payment followed by full refund at the same rate returns every account to its former balance |
| Ledger.SingleRefundKeepsContributions | server/services/ledger.service.js:79-81 | after the postings of a payment and of a single refund not above it, revenue and payable lie between their balances before the payment and after it |
| Ledger.PartialRefundsDrift | server/services/ledger.service.js:104-123 | a payment refunded in n parts returns all cash and leaves at most (n + 1) / 2 cents, with opposite signs, on revenue and payable |
| Ledger.RefundsOverdrawExactly | server/services/ledger.service.js:79-81 | after any refunds of a payment, whatever they add up to, revenue, payable and cash end no worse than before the payment if and only if the fees reversed, the rest of the refunds and the refunds do not exceed those of the payment |
| Ledger.NextRefundSafeExactly | server/services/ledger.service.js:79-81 | the next refund is safe for revenue and payable if and only if its fee and its rest stay within what the payment earned less what was reversed, which can be read off the revenue account |
| Ledger.PostKeepsBalance | server/services/ledger.service.js:214-231 | any posting, of any lines under any key, keeps every group balanced and total debits equal to total credits |
| Ledger.AccountsPartition | server/services/ledger.service.js:233-259 | cash, revenue and the payables of all hotels together account for every entry |
| Ledger.AccountingEquation | server/services/ledger.service.js:45-64 | after every run of payments, refunds and payouts each group balances and net cash equals net revenue plus what all hotels are owed |
| StableJson.LessAtFirstDifference | server/services/booking.service.js:895-897 | one key comes before another if and only if it runs out, or has the smaller code unit, at their first difference |
| StableJson.SortKeysAscending | server/services/booking.service.js:895-897 | sorting the keys of an object gives strictly ascending keys, by code unit |
| StableJson.AscendingKeysAgree | server/services/booking.service.js:895-897 | two ascending lists over the same keys have them in the same places |
| StableJson.SamePrintsSame | server/services/booking.service.js:891-902 | values equal up to the order of object keys, at every depth, print identically |
| StableJson.ReadsString | server/services/booking.service.js:897-901 | parsing a quoted string followed by any text gives back the string, surrogates and control characters included, and that text |
| StableJson.WrittenShortest | server/services/booking.service.js:891-902 | each character is written in the one shortest way that a reader accepts, with lower-case hexadecimal digits |
| StableJson.QuoteWellFormed | server/services/booking.service.js:891-902 | a quoted string has surrogates in pairs only, whatever the string has |
| StableJson.PlainTextUnchanged | server/services/booking.service.js:891-902 | well-formed text without anything to escape is quoted as it is, surrogate pairs included |
| StableJson.ReadsValue | server/services/booking.service.js:891-902 | parsing a printed value followed by anything that delimits it gives the value with sorted keys and exactly the rest |
| StableJson.SameFromCanon | server/services/booking.service.js:891-902 | values that agree after sorting keys are equal up to key order |
| StableJson.CanonicalForm | server/services/booking.service.js:884-902 | two request bodies print the same text if and only if they are equal up to key order |
| Reservations.OldestActive | server/repositories/hold.repository.js:112-133 | the hold picked for a payment is a live one of the user with the earliest deadline, and none is picked only if there is none |
| ReservationLaws.HoldAdded | server/services/hold.service.js:84-116 | inserting a hold with the held batch keeps every row's counters equal to the sums of claims |
| ReservationLaws.HoldFreed | server/services/hold.service.js:225-247 | closing an active hold with the release batch keeps them equal too |
| ReservationLaws.ConvertKeeps | server/services/booking.service.js:178-222 | completing a hold and reserving its rooms without an availability check keeps the whole invariant, capacity included |
| ReservationLaws.CreateHoldKeeps | server/services/hold.service.js:54-116 | creating a hold, accepted or refused, keeps the invariant when each room is named once |
| ReservationLaws.StepKeeps | server/services/hold.service.js:270-307 | every event in every state satisfying the invariant keeps it |
| ReservationLaws.EveryOrderlyRunIsSafe | server/services/booking.service.js:166-190 | after every orderly run held is the sum over active holds, booked the sum over bookings with rooms, and 0 <= held + booked <= total on every row |
| ReservationLaws.ScanStep | server/services/hold.service.js:270-307 | whatever stale list it comes from, expiring a hold acts if and only if the hold is active and due at that moment; a second attempt changes nothing |
| ReservationLaws.BookingScanStep | server/services/booking.service.js:413-467 | the same for pending bookings |
| ReservationLaws.EveryReturnHappensOnce | server/services/hold.service.js:334-357 | over every orderly run with any number of scanners, each hold's and booking's rooms are given back once if it ended and never otherwise, and nothing expires before its deadline |
| ReservationLaws.RefundKeepsExactly | server/services/payment.service.js:567-601 | a refund notification that names rooms keeps the invariant if and only if its booking's rooms were not yet given back and it takes from each row what the booking has there |
| ReservationLaws.RepeatedRefundTakesTwice | server/services/payment.service.js:585-601 | a repeated notification leaves every row short of what its bookings have by the claim of the booking |
| ReservationLaws.UpdateKeepsExactlySafe | server/repositories/room_inventory.repository.js:110-130 | an update of a row keeps the invariant if and only if it leaves the booked counter alone and the total no lower than held + booked |
| ReservationIdempotency.RunKeepsLinks | server/services/booking.service.js:149-273 | in every run each booking has a completed hold of its own, and a completed record and its booking point at each other |
| ReservationIdempotency.AtMostOneBooking | server/models/idempotency_key.model.js:75-80 | after every run two bookings never share a hold and never answer the same user and key |
| ReservationIdempotency.FailedKeyBooksNothing | server/services/booking.service.js:269-273 | once a key has failed, after every further run no booking answers it, its record still says so, and asking again with any body changes nothing |
| ReservationIdempotency.RunKeepsRecord | server/repositories/idempotency.repository.js:30-53 | a record keeps its request for ever, and its outcome once it has one |
| ReservationIdempotency.KeyAnswersForItsBody | server/services/booking.service.js:121-139 | after any run, a used key replays its response for a body equal to the first up to key order, refuses every other body, and refuses while unfinished or failed |
| ReservationIdempotency.ReplayIsStable | server/services/booking.service.js:132-137 | once completed, a key replays the same response after every further run |
| ReservationTerms.NewHoldExactly | server/services/hold.service.js:29-116 | a hold request is accepted if and only if it names rooms and nights that are available, and each refusal has its reason; the hold is the caller's, and can be used by the caller alone for exactly fifteen minutes |
| ReservationTerms.HoldLivesFifteenMinutes | server/services/hold.service.js:74 | after any run a hold has its first terms; it can be booked by its user, if and only if it is active and fifteen minutes have not passed, and expires if and only if it is active and they have |
| ReservationTerms.HoldEndsExactly | server/services/hold.service.js:204-332 | an event ends a hold, at that time, if and only if it is a release by its user, an expiry that finds it due, or one of the two ways to book it |
| ReservationTerms.BookingMadeExactly | server/services/booking.service.js:143-216 | an event makes a booking if and only if it is a begun request or the oldest hold's payment intent, for a hold its user can still use; the booking is that user's, of that hold, and has exactly fifteen minutes |
| ReservationTerms.BookingIsOfItsHold | server/services/booking.service.js:193-196 | in every run each booking is its hold's user's, for the hotel, rooms and nights of that hold; a request's is that of the key's user and of the hold the key named |
| ReservationTerms.RequestBooksNamedHold | server/services/booking.service.js:145-150 | a booking that answers a key is of the hold that the key's first call named, after every run |
| ReservationTerms.CompletedExactlyWhenBooked | server/services/booking.service.js:176 | in every run a hold is completed if and only if a booking was made from it, and then exactly one |
| ReservationTerms.RequestBeginsExactly | server/services/booking.service.js:116-141 | a request begins if and only if it brings a key that its user has not used; only the record of that key is added, and without a key it is refused |
| ReservationTerms.RequestSettlesExactly | server/services/booking.service.js:143-272 | a begun request ends completed with its booking and total if and only if the hold it names can be booked by its user, and failed otherwise |
| ReservationTerms.BookingRefusedExactly | server/services/booking.service.js:147-158 | each reason for refusing a request is given if and only if it holds and no earlier one does; a refusal changes nothing |
| ReservationTerms.ReleaseRefusedExactly | server/services/hold.service.js:204-214 | the same for releases |
| ReservationTerms.IntentRefusedExactly | server/services/payment.service.js:46-86 | the same for payment intents |
| ReservationTerms.PaymentCreditsHeldHotel | server/services/ledger.service.js:45-64 | in every run a posted payment credits the hotel that was held, by the total less the fee, and no other |
| ReservationPayments.StepPosts | server/services/payment.service.js:418-439 | each event posts at most one ledger group: its payment's, or the next refund's |
| ReservationPayments.BooksStayBalanced | server/services/ledger.service.js:214-231 | through every run of the engine each group balances and cash equals revenue plus what hotels are owed |
| ReservationPayments.WebhookKeepsSettled | server/services/payment.service.js:228-302 | a success webhook, first or repeated, keeps a booking in one of the three settled situations |
| ReservationPayments.RunSettles | server/services/payment.service.js:214-461 | every undisturbed booking of every run is waiting, paid with rooms and one posting, or expired without a posting |
| ReservationPayments.PaidOrExpired | server/services/booking.service.js:417-467 | in every orderly run that does not fail, cancel or refund a booking, it is confirmed with its rooms and exactly its payment's posting, or expired with rooms given back exactly once and nothing posted, or still waiting |
| ReservationPayments.WebhookConfirmsWithoutRooms | server/services/payment.service.js:251-302 | exactly when a success webhook confirms a booking whose rooms are gone |
| ReservationPayments.ReplayAfterRefundConfirmsWithoutRooms | server/services/payment.service.js:403-416 | from any paid booking, cancellation with refund, the refund notice and a repeated success webhook end confirmed without rooms |
| ReservationStatuses.StepMovesExactly | server/services/payment.service.js:211-615 | for every event: a booking comes to another status, its transaction to another status, and its end to a time, if and only if the event is one of those listed for it; events about other bookings leave it alone |
| ReservationStatuses.FailureMarksFailed | server/services/payment.service.js:467-542 | a failure webhook not recorded before marks booking and transaction failed, and changes no other field, booking, room or entry |
| ReservationStatuses.ConfirmedIsPaid | server/services/payment.service.js:276-302 | in every run, whatever fails or is refunded in it, no booking is confirmed, checked in or completed without its payment posted |
| ReservationStatuses.CancelRefusedExactly | server/services/booking.service.js:354-378 | each reason for refusing a cancellation is given if and only if it holds and no earlier one does; a refusal changes nothing |
| ReservationStatuses.NoticeRefusedExactly | server/services/payment.service.js:548-615 | the same for refund notices |
| ReservationStatuses.WebhookRefusedExactly | server/services/payment.service.js:214-302 | the same for success webhooks |
| ReservationStatuses.RefundRecordedExactly | server/services/booking.service.js:654-778 | a cancellation records a refund if and only if it asks for one of a charged booking: of the amount asked for, capped at the payment, and marked refunded if and only if the provider paid and the ledger accepts |
| ReservationPrices.QuotedTotalSame | server/services/pricing.service.js:15-60 | a quote depends on nothing but the prices of its own rooms and nights |
| ReservationPrices.RunReprices | server/services/pricing.service.js:15-60 | over every run the subtotal quoted for a hold moves by exactly the price changes on its rooms and nights, times the rooms they cover |
| ReservationPrices.ChargedAsQuoted | server/services/booking.service.js:171-212 | over every run that changes no price on its rooms and nights, a booking, on either path, costs what was quoted when its hold was made |
| ReservationPrices.PaidAsQuoted | server/services/ledger.service.js:45-51 | in such a run the posting of a paid booking puts exactly the quoted total into cash |
| ReservationPrices.IntentChargesTheHold | server/services/payment.service.js:113-137 | in every run, price changes included, a booking made by a payment intent costs what its hold said |
| ReservationPrices.RunKeepsHolds | server/services/hold.service.js:84-116 | in every run a hold keeps its user, hotel, rooms, nights, price and deadline, and its status once it has ended |
| ReservationPrices.PathsAgreeExactly | server/services/booking.service.js:171-212 | whatever happened since a hold was made, the request charges more than the payment intent if and only if the price changes on its rooms and nights come to more than nothing, and the same if and only if they come to nothing |
| ReservationPrices.RepricedGuestPaysByPath | server/services/payment.service.js:113-137 | from an empty table, one price change between hold and booking makes both ways open and charge the two different prices |
| Scenarios.GuestPays | server/services/payment.service.js:214-461 | from an empty table, hold, payment intent and success webhook lead to a paid and confirmed booking for every price whose fee split the ledger accepts |
| Scenarios.GuestIsLate | server/services/booking.service.js:413-517 | from an empty table, hold, payment intent and the passing of the deadline lead to an expired booking for every price |
| ReservationRefunds.RefundsRepeat | server/services/booking.service.js:354-411 | from any paid booking, cancelling with a refund and repeating the success webhook posts any list of refunds, one after another |
| ReservationRefunds.EngineOverdrawsExactly | server/services/ledger.service.js:70-127 | for every price and every list of refunds a run from an empty table posts them all, and overdraws revenue, payable or cash if and only if they exceed the payment's fee, rest or amount |
| ReservationRefunds.LeavesCancelledExactly | server/services/payment.service.js:403-416 | an event takes a booking out of cancelled if and only if it is a success webhook whose payment is not completed and can be posted, or a new failure webhook |
| ReservationRefunds.RunPaysBack | server/services/payment.service.js:251-302 | what a run has paid back for a booking, by refunds and by the provider at once, is the sum over its events of an amount read from the state before each: an accepted cancellation of a charged booking, or a refunded webhook for an expired one |
| ReservationRefunds.RefundsWithinPayment | server/services/booking.service.js:654-778 | in every run that neither reopens a cancelled booking nor pays a late payment back again, no more is paid back for it, late refunds included, than was charged |
| ReservationRefunds.NoFurtherRefundExactly | server/services/booking.service.js:372-378 | once everything has been paid back, no continuation without webhooks about the booking pays back more if and only if it is cancelled or completed; expired is not enough |
| ReservationRefunds.SecondRefundExactlyAfterReopening | server/services/booking.service.js:372-401 | after an event on a cancelled booking that is paid back in full, more can be paid back without further webhooks if and only if that event reopened it |
| ReservationRefunds.RefundWithoutPaymentExactly | server/services/booking.service.js:741-751 | after every run, an event posts a refund for a booking without a posted payment if and only if it is an accepted cancellation and every payment of the booking so far came late, at least one of them |
| ReservationRefunds.LateGuestIsPaidBackTwice | server/services/payment.service.js:251-302 | from an empty table, without reopening anything, a late payment paid back at once and a cancellation pay back twice the total, with revenue overdrawn by the fee and cash by the total |
| ReservationRefunds.RepeatIsSafeExactly | server/services/payment.service.js:243-302 | repeating a success webhook with any provider answer leaves the tables alone if and only if the booking was not expired at the first or its transaction was completed |
| ReservationRefunds.LateRefundIsForgotten | server/services/payment.service.js:265-285 | from an empty table, a repeated webhook for an expired booking overwrites the record of the refund already made |
| ReservationRefunds.NoticedTwice | server/services/payment.service.js:585-601 | from an empty table, a paying guest who cancels, and whose refund notice comes twice, leaves the row with minus one room booked |
| ReservationAccounts.EveryAccountIsExplained | server/services/ledger.service.js:45-127 | through every run each account, cash, revenue or a hotel's payable, is the effect of the posted payments of bookings less that of the refunds the table marks refunded |
| ExpiryScans.FindOldest | server/repositories/hold.repository.js:163-182 | the page holds min(limit, n) distinct overdue rows in deadline order, none later than a row left out |
| ExpiryScans.DueExactly | server/repositories/booking.repository.js:74-91 | the queries find exactly the active holds and the pending bookings whose deadline has come, each with its deadline |
| ExpiryScans.ScanKeepsInvariant | server/services/hold.service.js:334-358 | a scan over any list of ids, stale or repeated, keeps the invariant |
| ExpiryScans.ScanClears | server/services/hold.service.js:340-353 | after a scan of holds or of bookings exactly the listed rows have left the set of overdue ones |
| ExpiryScans.ExpiredGiveBack | server/services/booking.service.js:525-544 | a scan of bookings gives rooms back once for each booking it counts as released |
| ExpiryScans.InvariantReleasable | server/services/inventory.service.js:92-152 | in every state that satisfies the invariant no hold or booking would be refused by the release, so the backlog laws apply to it |
| ExpiryScans.OneScan | server/services/hold.service.js:334-358 | a scan with limit L leaves n - min(L, n) overdue holds or bookings, and those it took were the oldest |
| ExpiryScans.BacklogAfter | server/services/booking.service.js:519-545 | k scans at a fixed clock leave max(0, n - k L) overdue bookings, and likewise holds |
| ExpiryScans.BacklogClearsExactly | server/services/hold.service.js:334-358 | the backlog of holds or of bookings is empty if and only if at least ceil(n / L) scans were made |
| ReservationServer.Server.constructor | server/models/room_inventory.model.js:101-108 | an inventory at rest, one row per room and date, starts in the initial state of runs |
| ReservationServer.Server.CreateHold | server/services/hold.service.js:29-159 | validation, check, quote, insert and batch implement the specified step and reply |
| ReservationServer.Server.ReleaseHold | server/services/hold.service.js:204-264 | the refusals, the release batch and the status update implement the specified step |
| ReservationServer.Server.ExpireHoldIfDue | server/services/hold.service.js:270-332 | the re-check under lock, the batch and the status update implement the specified step |
| ReservationServer.Server.ReleaseExpiredHolds | server/services/hold.service.js:334-358 | the loop is a scan over a page of the oldest overdue holds, and its count is the number of returns it made |
| ReservationServer.Server.ReserveRooms | server/services/inventory.service.js:19-79 | refuses an empty list or range, otherwise raises booked by the claims, with no availability check |
| ReservationServer.Server.CreateBookingFromHold | server/services/booking.service.js:116-273 | the idempotency record, the transaction and the record's outcome implement the two specified steps in sequence |
| ReservationServer.Server.BookInTransaction | server/services/booking.service.js:149-222 | the ordered checks, the quote, release, reserve and insert implement the specified conversion or refusal |
| ReservationServer.Server.CreatePaymentIntent | server/services/payment.service.js:38-208 | conversion of the oldest hold, with roll-back when several bookings would share the unique code or the provider refuses |
| ReservationServer.Server.UpdateRow | server/repositories/room_inventory.repository.js:110-135 | a row update implements the specified step |
| ReservationServer.Server.ExpireBookingIfDue | server/services/booking.service.js:413-517 | the re-check, the return of rooms, and the updates of booking and transaction implement the specified step |
| ReservationServer.Server.ReleaseRooms | server/services/inventory.service.js:92-152 | lowers booked by the booking's claims, or reports the invalid input and changes nothing |
| ReservationServer.Server.ExpirePendingBookings | server/services/booking.service.js:519-545 | the loop is a scan over a page of the oldest overdue bookings, and its count is the number of returns it made |
| ReservationServer.Server.HandlePaymentSucceeded | server/services/payment.service.js:214-461 | the idempotency test, the late-payment branch, the confirmation and the posting with its roll-back implement the specified step |
| ReservationServer.Server.HandlePaymentFailed | server/services/payment.service.js:467-542 | marks transaction and booking failed unless already recorded |
| ReservationServer.Server.CancelBooking | server/services/booking.service.js:354-411 | the refusals, the optional refund and the status update implement the specified step; rooms are not given back |
| ReservationServer.Server.ProcessRefund | server/services/booking.service.js:654-778 | the cap at the paid amount, the provider's three outcomes, the transaction status and the posting implement the specified step |
| ReservationServer.Server.HandleRefundSucceeded | server/services/payment.service.js:548-615 | cancels the booking of a known charge and gives its rooms back, or rolls back on an error |
| ZonedTime.UtcFromZonedParts | server/services/booking.service.js:811-829 | the loop computes two corrections of the wall-clock reading |
| ZonedTime.TwoCorrectionsSuffice | server/services/booking.service.js:811-829 | with one offset change near the date, the result shows the requested wall-clock time if and only if some instant does |
| ZonedTime.GapMissedByItsWidth | server/services/booking.service.js:811-829 | a skipped wall-clock time is missed by exactly the width of the gap, with the sign determined |
| ZonedTime.OverlapPicksOne | server/services/booking.service.js:811-829 | a wall-clock time shown twice yields one of its two instants, and which one |
| ZonedTime.OneCorrectionCanMiss | server/services/booking.service.js:821-826 | a zone and a time for which a single correction is wrong and two are right |
| ZonedTime.WaitingNeverPays | server/services/booking.service.js:608-628 | if the later percentage is not the larger, the refund never grows with waiting and never exceeds what was paid |
| ZonedTime.RefundChangesAtDeadline | server/services/booking.service.js:608-628 | the first percentage applies if and only if at least the hours named are left until the instant at which the hotel's clock shows the check-in time, the second after that; none without the right to a refund |
| Settlement.PayoutService.CreateEligiblePayouts | server/services/payout.service.js:85-161 | the loop with its skips and failures performs the specified run, says whether it threw, and counts the items it created |
| Settlement.PayoutService.ProcessTransfer | server/services/payout.service.js:163-251 | the status steps and the posting implement the specified transfer; only pending payouts move |
| Settlement.AttemptPaysExactly | server/services/payout.service.js:91-153 | a row is paid out, to its owner and hotel and with its amounts, if and only if it has an owner, no item seen, something left after the fee, a ready account and no item; it ends the run if and only if all but these last two hold and one of them does not; the rest are passed over |
| Settlement.RunThrowsExactly | server/services/payout.service.js:85-161 | a run throws if and only if some payable row has no ready account, an item that the query did not see, or an earlier payable row of the same booking |
| Settlement.RunPaysExactly | server/services/payout.service.js:85-161 | a run that does not throw adds as many items as it has payable rows, one of its own amounts for each of them, and keeps the old ones |
| Settlement.AttemptKeepsItems | server/services/payout.service.js:104-151 | an attempt keeps net + fee = gross, one item per payout and per booking, and throws for a ready account only when the booking already has an item |
| Settlement.AtMostOneItemPerBooking | server/models/payout_item.model.js:89-94 | over any interleaving of attempts from any number of runs each booking gets at most one item, and net + fee = gross |
| Settlement.RunIsInterleaving | server/services/payout.service.js:85-161 | a run is such a sequence of attempts, cut off at the exception that ended it |
| Settlement.TransferOutcome | server/services/payout.service.js:183-250 | the payout group is posted if and only if the money moved, the status is paid if and only if the notification went out too, and processing again changes nothing |
| Settlement.PaidThenPaidOut | server/services/ledger.service.js:154-167 | payment and payout together change the hotel's account by total minus fee minus net |
| Settlement.SettlementClosesExactly | server/services/payout.service.js:104-112 | after payment and payout of an eligible booking the hotel's account has moved by the fee withheld less the fee recognised, and closes if and only if they are equal |
| Settlement.RequestShortfall | server/services/booking.service.js:206-210 | a booking made by a request ends short by round(total f) - round(subtotal f) cents, and by none without tax and service fee |
| Settlement.IntentShortfall | server/services/payment.service.js:113-137 | a booking made by a payment intent ends short by the whole round(total f), unless its commission is taken for missing and the run brings a fee rate of its own |
| ReservationPayouts.EligibleIsPaidExactlyWithRooms | server/repositories/payout.repository.js:217-245 | in every run a booking that the payout query finds has its payment posted, and is paid with rooms if and only if they have not been given back |
| ReservationPayouts.UndisturbedPayoutHasRooms | server/repositories/payout.repository.js:217-245 | while nothing fails, cancels or refunds a booking, the query finds it if and only if it is a paid stay with rooms whose check-in day has come and that is not checked in |
| ReservationPayouts.BecomesUnbackedExactly | server/services/payment.service.js:251-302 | an event gives a booking without rooms the labels of a paid one if and only if it is a success webhook that confirms a booking whose rooms are gone |
| ReservationPayouts.BecomesRefundedYetPaidExactly | server/services/payment.service.js:403-416 | an event gives a booking with refunds the labels that the payout query asks for if and only if it is a success webhook that confirms it |
| ReservationPayouts.PayoutLeavesExactly | server/services/payout.service.js:104-112 | in every run, for both ways to book, the credit of an eligible booking's payment and refunds left after its payout is its stored commission less the fee recognised and less the hotel's share of its refunds; it closes if and only if the commission equals those two |
| ReservationPayouts.UnrepaidPayoutHasNoRefund | server/repositories/payout.repository.js:217-245 | in a run that never repays a booking, one that the payout query finds has nothing refunded |
| ReservationPayouts.RefundedGuestIsPaidOut | server/services/payout.service.js:85-154 | from an empty table, after a full refund and a repeated webhook the booking is eligible, and its payout leaves the hotel short by the whole total |
| PayoutRuns.EveryAccountStaysExplained | server/services/ledger.service.js:45-167 | through every run of the engine and of payouts together each account is the posted payments less the refunds plus the posted payouts |
| PayoutRuns.HotelOwesExactly | server/services/ledger.service.js:154-167 | after every such run a hotel owes the platform if and only if its shares of the refunds and its payouts exceed its shares of the payments |
| PayoutRuns.GoesNegativeExactly | server/services/payout.service.js:163-251 | the next event takes a hotel below zero if and only if what it takes, read from the state before it, exceeds what the account holds |
| PayoutRuns.PaidOutGuestLeavesDebt | server/services/booking.service.js:354-411 | from an empty table, a booking paid, paid out and then cancelled with a full refund leaves the hotel owing the whole total |
| Availability.CountMeansEveryNight | server/repositories/room.repository.js:64-76 | as many fitting rows as nights means a fitting row on every night |
| Availability.ListedExactlyWhenHoldable | server/repositories/room.repository.js:64-76 | a room is listed for n rooms if and only if it is an active room of the hotel for enough guests and the hold check accepts n of it |
| Availability.ReportedMinimumIsLargestHold | server/repositories/room.repository.js:51-62 | the reported minimum is the largest number of rooms that the hold check accepts |
| Availability.UpdateDecidesHolds | server/repositories/room_inventory.repository.js:110-135 | after an update of a row, n rooms can be held for that night if and only if status, total and booked, each as updated or as before, leave n besides the held ones |
| Availability.PrefilterIsSound | server/services/search.service.js:339-384 | hotel phase, room phase and final filter together give exactly what the room query alone gives |
| Availability.PhasesSwapQuantifiers | server/repositories/search.repository.js:147-222 | the hotel phase keeps a hotel if and only if on every night some room qualifies, the room phase if and only if some room qualifies on every night |
| Availability.PrefilterAloneOverreports | server/repositories/search.repository.js:147-164 | two rooms, each free on one of two nights, pass the hotel phase though neither can be booked |
| Availability.OfferedExactly | server/repositories/search.repository.js:200-222 | the search offers a room if and only if it is a room of the hotel for enough guests whose row is open every night with enough rooms not booked |
| Availability.SearchIgnoresHeldRooms | server/repositories/search.repository.js:200-222 | a room offered by the search is accepted for a hold if and only if held rooms leave enough on every night |
| RateLimiter.Limiter.Allow | server/socket/socket.utils.js:173-199 | the middleware filters, decides, stores and evicts as specified |
| RateLimiter.NoEviction | server/socket/socket.utils.js:192-196 | while at most 1000 sockets were seen, the map holds exactly one list for each of them |
| RateLimiter.PrunedListIsFaithful | server/socket/socket.utils.js:181-190 | the pruned list always has the same recent part as the full history of acceptances, now and at every later time |
| RateLimiter.AcceptsExactlyBelowLimit | server/socket/socket.utils.js:181-187 | an event passes if and only if fewer than `limit` of all past acceptances lie in the window |
| RateLimiter.HistorySpaced | server/socket/socket.utils.js:181-190 | acceptances `limit` places apart are at least a window apart |
| RateLimiter.NoWindowExceedsLimit | server/socket/socket.utils.js:171-199 | no window, wherever it starts, holds more than `limit` acceptances of a socket |
| RateLimiter.FloodExceedsLimit | server/socket/socket.utils.js:173-199 | for every positive limit and window, a run in which 1000 other sockets call after socket 0 has used up its limit lets limit + 1 of its events through at one instant |
| RateLimiter.LimitHoldsExactlyUpToCapacity | server/socket/socket.utils.js:192-196 | the limit holds in every run of at most n sockets if and only if n is at most 1000, or limit or window is not positive |

## Left out

- Floating point: amounts are integer cents and rates exact fractions, so `Number.EPSILON`, decimal strings and their rounding noise do not appear; one currency.
- Dates: day numbers; local `Date` arithmetic across daylight-saving changes in the day loops is not modelled, and the zone offset of `getTimezoneOffset` is a given function.
- StableJson.Stringify: a JSON number stands for its decimal text, so the conversion of numbers to text is not modelled; `undefined`, functions and dates as values are not either.
- Hashing: the canonical text itself is the request's fingerprint, in place of its SHA-256 digest.
- Transactions: each database transaction is one step; reads made before a transaction (in `createHold` and `releaseHold`) are part of that step, so interleavings inside it are not modelled. `createBookingFromHold` is two steps, as its record commits first.
- Foreign calls: Stripe, Redis, message queues, object storage, search index and mail; what the payment provider answers is a parameter of the step.
- Inventory.RoomInventory.Batch: the four batch loops differ only in the counter and the direction, which are parameters here.
- ReservationServer.Server.HandlePaymentSucceeded: the branch for a payment whose booking code has no bookings is not modelled; it inserts confirmed bookings without touching the inventory, so the inventory laws do not hold for it.
- ReservationServer.Server.HandlePaymentFailed: the branch that records a failed transaction when none exists is not modelled; every booking of the model has its transaction, and a stray record changes no booking.
- ReservationServer.Server.HandleRefundSucceeded: the booking code and the charge of a notification are taken to belong to one booking; a notification without dates counts as one without rooms.
- ReservationServer.Server.CancelBooking: the refund amount is any number, not only what the cancellation rule yields; `ZonedTime.RefundAmount` models the rule on its own, and bookings without a rule (left to manual review) get none. A missing provider key reads as an uncharged booking.
- Reservations.AdvanceStays: the date-driven status update is part of every run but has no method of its own.
- Creating and deleting inventory rows: a new row for a night that an active hold already covers would start with wrong counters; rows are fixed during a run.
- Scans: the limit is the effective one, after the default of 100 has replaced a missing or zero limit; rows with equal deadlines come in any order.
- Settlement.PayoutService.ProcessTransfer: refusals for a missing connected account or key, which change nothing, are not told apart from other refusals.
- Settlement.PayoutService.CreateEligiblePayouts: owners, accounts and the answer of the eligibility query are inputs of a run; whether a commission of zero counts as missing depends on how the database driver returns decimals, so it is an option in `Settlement.Eligible`. In `PayoutRuns` a payout run is a sequence of attempts, each from a row that the query returns at that moment.
- createPaymentIntentForBooking, quotes' policy snapshots, booking responses, emails and the other fields of holds and bookings that no decision here reads.
- RateLimiter.NoWindowExceedsLimit: assumes a clock that does not go back and at most 1000 sockets; `LimitHoldsExactlyUpToCapacity` shows the second to be exactly what is needed.
- The other search phases, ranking, the hotel snapshot worker, controllers, permissions and templates: plumbing or simple look-ups.
