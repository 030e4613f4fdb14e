/** Which bookings can be paid out, and what a payout leaves on the hotel's account. */
module ReservationPayouts {
  import opened Common
  import opened Inventory
  import opened Money
  import opened Reservations
  import opened ReservationAccounts
  import ReservationPayments
  import ReservationRefunds
  import Scenarios
  import Pricing
  import Ledger
  import Settlement

  /** findEligibleBookingsForPayout, with dates as day numbers. */
  predicate EligibleForPayout(b: Booking, cutoff: int) {
    (b.status.Confirmed? || b.status.StayCompleted?) && b.checkIn <= cutoff && b.tx.TxCompleted?
  }

  /** The row that the query hands to the payout run. */
  function PayoutRow(b: Booking, i: nat, owner: Option<nat>, itemSeen: bool, account: bool): Settlement.Eligible {
    Settlement.Eligible(i, b.hotel, owner, b.total, Some(b.commission), itemSeen, account)
  }

  // ---- What a booking owes the platform ----

  /** A request stores the commission on its subtotal, a payment intent stores none. */
  predicate CommissionStored(cfg: Config, b: Booking) {
    if b.source.FromPaymentIntent? then b.subtotal == 0 && b.commission == 0
    else
      && 0 <= b.subtotal && b.total == Pricing.Total(b.subtotal, cfg.rates)
      && b.commission == Share(b.subtotal, cfg.rates.commission)
  }

  /** A payment is posted as a whole or not at all, and is posted once the transaction is marked completed. */
  ghost predicate PostingSound(cfg: Config, s: State, i: nat)
    requires i < |s.bookings|
  {
    var entries := Ledger.EntriesOf(s.books, Ledger.PaymentSucceeded(i));
    && (entries == [] || entries == ReservationPayments.PaymentPosting(cfg, s.bookings[i]))
    && (s.bookings[i].tx.TxCompleted? ==> entries != [])
  }

  ghost predicate Accounted(cfg: Config, s: State, i: nat) {
    i < |s.bookings| ==> CommissionStored(cfg, s.bookings[i]) && PostingSound(cfg, s, i)
  }

  lemma WebhookKeepsPosting(cfg: Config, s: State, i: nat, refunded: bool)
    requires i < |s.bookings| && PostingSound(cfg, s, i)
    ensures PostingSound(cfg, HandlePaymentSucceeded(cfg, s, i, refunded).0, i)
  {
    var b := s.bookings[i];
    var key, lines := Ledger.PaymentSucceeded(i), Ledger.PaymentLines(b.total, b.hotel, cfg.feeRate);
    if Ledger.EntriesOf(s.books, key) == [] && Ledger.Post(s.books, key, lines).Ok? {
      Ledger.PostOnce(s.books, key, lines, lines, key);
    }
  }

  lemma StepKeepsPosting(cfg: Config, s: State, e: Event, i: nat)
    requires i < |s.bookings| && PostingSound(cfg, s, i)
    ensures i < |Step(cfg, s, e).bookings| && PostingSound(cfg, Step(cfg, s, e), i)
  {
    if e.OnPaymentSucceeded? && e.paid == i {
      WebhookKeepsPosting(cfg, s, i, e.refunded);
    } else {
      StepKeepsTerms(cfg, s, e, i);
      ReservationPayments.OtherGroupsKept(cfg, s, e, i);
    }
  }

  lemma OldBookingAccounted(cfg: Config, s: State, e: Event, i: nat)
    requires Accounted(cfg, s, i) && i < |s.bookings|
    ensures Accounted(cfg, Step(cfg, s, e), i)
  {
    StepKeepsTerms(cfg, s, e, i);
    StepKeepsPosting(cfg, s, e, i);
  }

  lemma StepKeepsAccounted(cfg: Config, s: State, e: Event, i: nat)
    requires ReservationPayments.NoEarlyPosting(s) && Accounted(cfg, s, i)
    ensures Accounted(cfg, Step(cfg, s, e), i)
  {
    if i < |s.bookings| {
      OldBookingAccounted(cfg, s, e, i);
    } else {
      LaterBookingAccounted(cfg, s, e, i);
    }
  }

  /** A new booking stores its commission and has no posting yet. */
  lemma LaterBookingAccounted(cfg: Config, s: State, e: Event, i: nat)
    requires ReservationPayments.NoEarlyPosting(s) && |s.bookings| <= i
    ensures Accounted(cfg, Step(cfg, s, e), i)
  {
    match e
    case OnFinishBooking(id) => FinishedAccounted(cfg, s, id, i);
    case OnPaymentIntent(payer, accepts) => IntentAccounted(cfg, s, payer, accepts, i);
    case _ => ReservationPayments.NoNewBooking(cfg, s, e);
  }

  lemma FinishedAccounted(cfg: Config, s: State, id: KeyId, i: nat)
    requires ReservationPayments.NoEarlyPosting(s) && |s.bookings| <= i
    ensures Accounted(cfg, FinishBooking(cfg, s, id).0, i)
  {
  }

  lemma IntentAccounted(cfg: Config, s: State, payer: nat, accepts: bool, i: nat)
    requires ReservationPayments.NoEarlyPosting(s) && |s.bookings| <= i
    ensures Accounted(cfg, CreatePaymentIntent(s, payer, accepts).0, i)
  {
  }

  lemma {:induction false} RunKeepsAccounted(cfg: Config, now: int, rows: Table, events: seq<Event>, i: nat)
    ensures Accounted(cfg, Run(cfg, Start(now, rows), events), i)
  {
    if events != [] {
      var n := |events| - 1;
      RunKeepsAccounted(cfg, now, rows, events[..n], i);
      ReservationPayments.RunKeepsNoEarlyPosting(cfg, now, rows, events[..n]);
      StepKeepsAccounted(cfg, Run(cfg, Start(now, rows), events[..n]), events[n], i);
    }
  }

  // ---- Who can be paid out ----

  /** In every run, a booking that the payout query finds has its payment posted; it is paid and keeps its rooms
      exactly if they have not been given back. */
  lemma EligibleIsPaidExactlyWithRooms(cfg: Config, now: int, rows: Table, events: seq<Event>, i: nat, cutoff: int)
    ensures var s := Run(cfg, Start(now, rows), events);
            i < |s.bookings| && EligibleForPayout(s.bookings[i], cutoff) ==>
              && Ledger.EntriesOf(s.books, Ledger.PaymentSucceeded(i))
                 == ReservationPayments.PaymentPosting(cfg, s.bookings[i]) != []
              && (ReservationPayments.PaidWithRooms(cfg, s, i) <==> !s.bookings[i].roomsReturned)
  {
    RunKeepsAccounted(cfg, now, rows, events, i);
  }

  /** While nothing fails, cancels or refunds a booking, it is paid out exactly if it is a paid stay with rooms whose
      check-in day has come, except between check-in and the end of the stay. */
  lemma UndisturbedPayoutHasRooms(cfg: Config, now: int, rows: Table, events: seq<Event>, i: nat, cutoff: int)
    requires forall k | 0 <= k < |events| :: ReservationPayments.Undisturbed(events[k], i)
    ensures var s := Run(cfg, Start(now, rows), events);
            i < |s.bookings| ==>
              (EligibleForPayout(s.bookings[i], cutoff) <==>
               && ReservationPayments.PaidWithRooms(cfg, s, i)
               && s.bookings[i].checkIn <= cutoff && !s.bookings[i].status.CheckedIn?)
  {
    ReservationPayments.RunSettles(cfg, now, rows, events, i);
  }

  /** Paid by its labels, but its rooms are gone. */
  predicate Unbacked(s: State, i: nat) {
    && i < |s.bookings| && s.bookings[i].roomsReturned && s.bookings[i].tx.TxCompleted?
    && ReservationPayments.PaidStatus(s.bookings[i].status)
  }

  /** A success webhook that confirms a booking whose rooms have been given back. */
  predicate ConfirmsWithoutRooms(cfg: Config, s: State, e: Event, i: nat) {
    && e.OnPaymentSucceeded? && e.paid == i && i < |s.bookings|
    && var b := s.bookings[i];
    && b.roomsReturned && !b.tx.TxCompleted? && !b.status.BookingExpired? && ReservationPayments.Postable(cfg, s, i)
  }

  lemma WebhookUnbacksExactly(cfg: Config, s: State, e: Event, i: nat)
    requires e.OnPaymentSucceeded?
    ensures Unbacked(Step(cfg, s, e), i) && !Unbacked(s, i) <==> ConfirmsWithoutRooms(cfg, s, e, i)
  {
    if i < |s.bookings| {
      ReservationPayments.PostableExactly(cfg, s, i);
    }
  }

  lemma BookingEventsUnbackNothing(cfg: Config, s: State, e: Event, i: nat)
    requires e.OnExpireBooking? || e.OnAdvanceStays? || e.OnRefundSucceeded? || e.OnPaymentFailed?
    ensures Unbacked(Step(cfg, s, e), i) ==> Unbacked(s, i)
  {
  }

  lemma CancelUnbacksNothing(cfg: Config, s: State, e: Event, i: nat)
    requires e.OnCancel?
    ensures Unbacked(Step(cfg, s, e), i) ==> Unbacked(s, i)
  {
    if e.cancelled < |s.bookings| && i < |s.bookings| && e.cancelled != i {
      ReservationPayments.QuietPaymentStep(cfg, s, e, i);
    }
  }

  lemma HoldEventsUnbackNothing(cfg: Config, s: State, e: Event, i: nat)
    requires || e.Tick? || e.OnCreateHold? || e.OnReleaseHold? || e.OnExpireHold? || e.OnUpdateRow?
             || e.OnBeginBooking? || e.OnFinishBooking? || e.OnPaymentIntent?
    ensures Unbacked(Step(cfg, s, e), i) ==> Unbacked(s, i)
  {
    if i < |s.bookings| {
      ReservationPayments.QuietHoldStep(cfg, s, e, i);
    } else if i < |Step(cfg, s, e).bookings| {
      ReservationPayments.BookingsOnlyGrow(cfg, s, e);
      ReservationPayments.NewBookingPending(cfg, s, e);
    }
  }

  /** An event makes a booking eligible for a payout it has no rooms for exactly when it is such a webhook. */
  lemma BecomesUnbackedExactly(cfg: Config, s: State, e: Event, i: nat)
    ensures Unbacked(Step(cfg, s, e), i) && !Unbacked(s, i) <==> ConfirmsWithoutRooms(cfg, s, e, i)
  {
    if e.OnPaymentSucceeded? {
      WebhookUnbacksExactly(cfg, s, e, i);
    } else if e.OnCancel? {
      CancelUnbacksNothing(cfg, s, e, i);
    } else if e.OnExpireBooking? || e.OnAdvanceStays? || e.OnRefundSucceeded? || e.OnPaymentFailed? {
      BookingEventsUnbackNothing(cfg, s, e, i);
    } else {
      HoldEventsUnbackNothing(cfg, s, e, i);
    }
  }

  // ---- Refunded, and paid again ----

  /** Paid by its labels, though something has been refunded for it. */
  predicate RefundedYetPaid(s: State, i: nat) {
    && i < |s.bookings| && ReservationRefunds.RefundedOf(s.refunds, i) > 0 && s.bookings[i].tx.TxCompleted?
    && ReservationPayments.PaidStatus(s.bookings[i].status)
  }

  /** A success webhook that confirms a booking for which something has been refunded. */
  predicate ConfirmsRefunded(cfg: Config, s: State, e: Event, i: nat) {
    && e.OnPaymentSucceeded? && e.paid == i && i < |s.bookings| && ReservationRefunds.RefundedOf(s.refunds, i) > 0
    && !s.bookings[i].tx.TxCompleted? && !s.bookings[i].status.BookingExpired?
       && ReservationPayments.Postable(cfg, s, i)
  }

  lemma WebhookPaysRefundedExactly(cfg: Config, s: State, e: Event, i: nat)
    requires e.OnPaymentSucceeded?
    ensures RefundedYetPaid(Step(cfg, s, e), i) && !RefundedYetPaid(s, i) <==> ConfirmsRefunded(cfg, s, e, i)
  {
    OnlyCancelRefunds(cfg, s, e);
    if i < |s.bookings| {
      ReservationPayments.PostableExactly(cfg, s, i);
    }
  }

  lemma CancelPaysNoRefunded(cfg: Config, s: State, e: Event, i: nat)
    requires RefundsSound(cfg, s) && e.OnCancel?
    ensures RefundedYetPaid(Step(cfg, s, e), i) ==> RefundedYetPaid(s, i)
  {
    ReservationRefunds.CancelPaysBack(cfg, s, e, i);
    CancelLeaves(cfg, s, e, i);
  }

  /** A cancellation leaves a booking as it is or cancelled, and refunds none of the others. */
  lemma CancelLeaves(cfg: Config, s: State, e: Event, i: nat)
    requires e.OnCancel?
    ensures var t := Step(cfg, s, e);
            && |t.bookings| == |s.bookings|
            && (i < |s.bookings| ==> t.bookings[i] == s.bookings[i] || t.bookings[i].status.Cancelled?)
            && (i < |s.bookings| && !t.bookings[i].status.Cancelled? ==> ReservationRefunds.PaysBack(cfg, s, e, i) == 0)
  {
    if i < |s.bookings| && e.cancelled != i {
      ReservationPayments.QuietPaymentStep(cfg, s, e, i);
    }
  }

  lemma BookingEventsPayNoRefunded(cfg: Config, s: State, e: Event, i: nat)
    requires e.OnExpireBooking? || e.OnAdvanceStays? || e.OnRefundSucceeded? || e.OnPaymentFailed?
    ensures RefundedYetPaid(Step(cfg, s, e), i) ==> RefundedYetPaid(s, i)
  {
    OnlyCancelRefunds(cfg, s, e);
  }

  lemma HoldEventsPayNoRefunded(cfg: Config, s: State, e: Event, i: nat)
    requires || e.Tick? || e.OnCreateHold? || e.OnReleaseHold? || e.OnExpireHold? || e.OnUpdateRow?
             || e.OnBeginBooking? || e.OnFinishBooking? || e.OnPaymentIntent?
    ensures RefundedYetPaid(Step(cfg, s, e), i) ==> RefundedYetPaid(s, i)
  {
    OnlyCancelRefunds(cfg, s, e);
    if i < |s.bookings| {
      ReservationPayments.QuietHoldStep(cfg, s, e, i);
    } else if i < |Step(cfg, s, e).bookings| {
      ReservationPayments.BookingsOnlyGrow(cfg, s, e);
      ReservationPayments.NewBookingPending(cfg, s, e);
    }
  }

  /** An event gives a refunded booking the labels that the payout query asks for exactly when it is such a
      webhook. */
  lemma BecomesRefundedYetPaidExactly(cfg: Config, s: State, e: Event, i: nat)
    requires RefundsSound(cfg, s)
    ensures RefundedYetPaid(Step(cfg, s, e), i) && !RefundedYetPaid(s, i) <==> ConfirmsRefunded(cfg, s, e, i)
  {
    if e.OnPaymentSucceeded? {
      WebhookPaysRefundedExactly(cfg, s, e, i);
    } else if e.OnCancel? {
      CancelPaysNoRefunded(cfg, s, e, i);
    } else if e.OnExpireBooking? || e.OnAdvanceStays? || e.OnRefundSucceeded? || e.OnPaymentFailed? {
      BookingEventsPayNoRefunded(cfg, s, e, i);
    } else {
      HoldEventsPayNoRefunded(cfg, s, e, i);
    }
  }

  // ---- What a payout leaves behind ----

  /** What the refunds of a booking, less the fees they reverse, come to. */
  function RestRefunded(cfg: Config, refunds: seq<RefundRow>, i: nat): int {
    if refunds == [] then 0
    else
      var last := refunds[|refunds| - 1];
      RestRefunded(cfg, refunds[..|refunds| - 1], i)
      + if last.booking == i && last.state.Refunded? then last.amount - Share(last.amount, cfg.feeRate) else 0
  }

  /** What the refund groups of a booking put on an account, by the ledger. */
  function RefundGroupsOn(books: Ledger.Books, refunds: seq<RefundRow>, i: nat, account: Ledger.Account): int {
    if refunds == [] then 0
    else
      var n := |refunds| - 1;
      RefundGroupsOn(books, refunds[..n], i, account)
      + if refunds[n].booking == i then Ledger.NetOfLines(Ledger.EntriesOf(books, Ledger.RefundSucceeded(n)), account)
           else 0
  }

  /** What the groups of a booking, its payment and all its refunds, have left its hotel on account. */
  function Credited(s: State, i: nat): int
    requires i < |s.bookings|
  {
    var account := Ledger.HotelPayable(s.bookings[i].hotel);
    -Ledger.NetOfLines(Ledger.EntriesOf(s.books, Ledger.PaymentSucceeded(i)), account)
        - RefundGroupsOn(s.books, s.refunds, i, account)
  }

  /** A row of the table of refunds has the hotel of its booking. */
  ghost predicate RowsMatch(s: State) {
    forall k | 0 <= k < |s.refunds| ::
        s.refunds[k].booking < |s.bookings| && s.refunds[k].hotel == s.bookings[s.refunds[k].booking].hotel
  }

  lemma CancelKeepsRowsMatch(cfg: Config, s: State, i: nat, user: nat, cents: Option<int>, provider: ProviderRefund)
    requires RowsMatch(s)
    ensures RowsMatch(CancelBooking(cfg, s, i, user, cents, provider).0)
  {
  }

  lemma OthersKeepRowsMatch(cfg: Config, s: State, e: Event)
    requires RowsMatch(s) && !e.OnCancel?
    ensures RowsMatch(Step(cfg, s, e))
  {
    OnlyCancelRefunds(cfg, s, e);
    ChargesKept(cfg, s, e);
    var t := Step(cfg, s, e);
    forall k | 0 <= k < |s.bookings| ensures t.bookings[k].hotel == s.bookings[k].hotel {
      assert t.bookings[..|s.bookings|][k] == t.bookings[k];
    }
  }

  lemma {:induction false} RunKeepsRowsMatch(cfg: Config, now: int, rows: Table, events: seq<Event>)
    ensures RowsMatch(Run(cfg, Start(now, rows), events))
  {
    if events != [] {
      var n := |events| - 1;
      var s, e := Run(cfg, Start(now, rows), events[..n]), events[n];
      RunKeepsRowsMatch(cfg, now, rows, events[..n]);
      if e.OnCancel? {
        CancelKeepsRowsMatch(cfg, s, e.cancelled, e.byUser, e.refundCents, e.provider);
      } else {
        OthersKeepRowsMatch(cfg, s, e);
      }
    }
  }

  lemma {:induction false} GroupsAreRest(cfg: Config, books: Ledger.Books, refunds: seq<RefundRow>, i: nat, hotel: nat)
    requires forall k | 0 <= k < |refunds| && refunds[k].booking == i :: refunds[k].hotel == hotel
    requires forall k | 0 <= k < |refunds| && refunds[k].state.Refunded? :: Fits(cfg, refunds[k].amount)
    requires forall k | 0 <= k < |refunds| :: Ledger.EntriesOf(books, Ledger.RefundSucceeded(k))
                                              == if refunds[k].state.Refunded? then RefundPosting(cfg, refunds[k])
                                                 else []
    ensures RefundGroupsOn(books, refunds, i, Ledger.HotelPayable(hotel)) == RestRefunded(cfg, refunds, i)
  {
    if refunds != [] {
      var last := refunds[|refunds| - 1];
      GroupsAreRest(cfg, books, refunds[..|refunds| - 1], i, hotel);
      if last.booking == i && last.state.Refunded? {
        Ledger.RefundNet(last.amount, hotel, cfg.feeRate, Ledger.HotelPayable(hotel));
      }
    }
  }

  lemma PaymentCredits(cfg: Config, s: State, i: nat)
    requires i < |s.bookings| && PostingSound(cfg, s, i)
             && s.bookings[i].tx.TxCompleted? && Ledger.GroupsBalanced(s.books)
    ensures var b := s.bookings[i];
            Ledger.NetOfLines(Ledger.EntriesOf(s.books, Ledger.PaymentSucceeded(i)), Ledger.HotelPayable(b.hotel))
                == Share(b.total, cfg.feeRate) - b.total
  {
    var b := s.bookings[i];
    assert Ledger.Balanced(Ledger.EntriesOf(s.books, Ledger.PaymentSucceeded(i)));
    Ledger.PaymentAcceptedExactly(b.total, b.hotel, cfg.feeRate);
    Ledger.PaymentNet(b.total, b.hotel, cfg.feeRate, Ledger.HotelPayable(b.hotel));
  }

  /** Over both ways to book, in every run, refunds included: what is left of a booking's credit after its payout
      is the stored commission less the fee recognised and less the rest of its refunds; it closes exactly when
      the commission equals those two together.  A request's commission is the share of its subtotal; a payment
      intent stores none. */
  lemma PayoutLeavesExactly(cfg: Config, now: int, rows: Table, events: seq<Event>, i: nat, cutoff: int)
    ensures var s := Run(cfg, Start(now, rows), events);
            i < |s.bookings| && EligibleForPayout(s.bookings[i], cutoff) ==>
              var b := s.bookings[i];
              var left := Credited(s, i) - (b.total
                                            - Settlement.FeeOf(PayoutRow(b, i, None, false, true), Fraction(0, 1)));
              var due := Share(b.total, cfg.feeRate) + RestRefunded(cfg, s.refunds, i);
              && left == b.commission - due
              && (left == 0 <==> b.commission == due)
              && (b.source.FromPaymentIntent? ==> left == -due)
              && (b.source.FromRequest? ==> left == Share(b.subtotal, cfg.rates.commission) - due)
  {
    var s := Run(cfg, Start(now, rows), events);
    RunKeepsAccounted(cfg, now, rows, events, i);
    ReservationPayments.RunKeepsBalance(cfg, now, rows, events);
    ReservationRefunds.RunKeepsRefundsSound(cfg, Start(now, rows), events);
    RunKeepsRowsMatch(cfg, now, rows, events);
    if i < |s.bookings| && EligibleForPayout(s.bookings[i], cutoff) {
      PaymentCredits(cfg, s, i);
      GroupsAreRest(cfg, s.books, s.refunds, i, s.bookings[i].hotel);
    }
  }

  lemma {:induction false} NothingRefunded(cfg: Config, refunds: seq<RefundRow>, i: nat)
    requires forall k | 0 <= k < |refunds| && refunds[k].state.Refunded? :: Fits(cfg, refunds[k].amount)
    ensures 0 <= ReservationRefunds.RefundedOf(refunds, i)
    ensures ReservationRefunds.RefundedOf(refunds, i) == 0 ==> RestRefunded(cfg, refunds, i) == 0
  {
    if refunds != [] {
      NothingRefunded(cfg, refunds[..|refunds| - 1], i);
    }
  }

  /** In a run that never repays a booking, one that can be paid out has nothing refunded, and its payout leaves
      just the difference of the two fees. */
  lemma UnrepaidPayoutHasNoRefund(cfg: Config, now: int, rows: Table, events: seq<Event>, i: nat, cutoff: int)
    ensures var s := Run(cfg, Start(now, rows), events);
            ReservationRefunds.NeverRepaid(cfg, Start(now, rows), events, i)
                && i < |s.bookings| && EligibleForPayout(s.bookings[i], cutoff) ==>
              ReservationRefunds.RefundedOf(s.refunds, i) == 0 && RestRefunded(cfg, s.refunds, i) == 0
  {
    var s := Run(cfg, Start(now, rows), events);
    if ReservationRefunds.NeverRepaid(cfg, Start(now, rows), events, i)
        && i < |s.bookings| && EligibleForPayout(s.bookings[i], cutoff) {
      ReservationRefunds.RunPaysBackOnce(cfg, now, rows, events, i);
      ReservationRefunds.RunKeepsRefundsSound(cfg, Start(now, rows), events);
      NothingRefunded(cfg, s.refunds, i);
    }
  }

  /** From an empty table: after a full refund and a repeated webhook the booking is paid by its labels and can be
      paid out, and the payout leaves the hotel short by its whole share of the payment, and the fee besides. */
  lemma RefundedGuestIsPaidOut(cfg: Config, price: nat)
    requires Fits(cfg, Pricing.Total(price, cfg.rates))
    ensures var total := Pricing.Total(price, cfg.rates);
            var s := Run(cfg, Start(0, Scenarios.OneRoom(price)),
                         Scenarios.PayingGuest() + ReservationRefunds.RefundRounds(0, 0, [total]));
            && |s.bookings| == 1 && EligibleForPayout(s.bookings[0], 0) && ReservationPayments.PaidWithRooms(cfg, s, 0)
            && Credited(s, 0) - (total - Settlement.FeeOf(PayoutRow(s.bookings[0], 0, None, false, true),
                                                          Fraction(0, 1))) == -total
  {
    var total := Pricing.Total(price, cfg.rates);
    var events := Scenarios.PayingGuest() + ReservationRefunds.RefundRounds(0, 0, [total]);
    var s := ReservationRefunds.RefundedGuest(cfg, price, [total]);
    PayoutLeavesExactly(cfg, 0, Scenarios.OneRoom(price), events, 0, 0);
    assert s.refunds[..0] == [];
    assert RestRefunded(cfg, s.refunds, 0) == total - Share(total, cfg.feeRate);
    assert ReservationPayments.PaidWithRooms(cfg, s, 0) && EligibleForPayout(s.bookings[0], 0);
  }
}
