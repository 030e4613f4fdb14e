/** How often a payment can be refunded, and what the ledger says about it. */
module ReservationRefunds {
  import opened Common
  import opened Inventory
  import opened Money
  import opened Reservations
  import opened ReservationAccounts
  import ReservationPayments
  import opened Scenarios
  import Pricing
  import Ledger

  // ---- Any number of refunds of one payment ----

  /** Cancel with a refund, then let the success webhook come again; over and over. */
  function RefundRounds(i: nat, buyer: nat, parts: seq<int>): seq<Event> {
    if parts == [] then []
    else RefundRounds(i, buyer, parts[..|parts| - 1])
         + [OnCancel(i, buyer, Some(parts[|parts| - 1]), RefundDone), OnPaymentSucceeded(i, false)]
  }

  /** One round's two events. */
  function Round(cfg: Config, s: State, i: nat, buyer: nat, part: int): State {
    HandlePaymentSucceeded(cfg, CancelBooking(cfg, s, i, buyer, Some(part), RefundDone).0, i, false).0
  }

  ghost predicate NoLaterRefund(s: State) {
    forall id: nat | |s.refunds| <= id :: Ledger.EntriesOf(s.books, Ledger.RefundSucceeded(id)) == []
  }

  /** From s to t, one part was refunded and the booking is paid and confirmed again. */
  ghost predicate RoundDone(cfg: Config, s: State, t: State, i: nat, part: int)
    requires i < |s.bookings|
  {
    var b := s.bookings[i];
    && Paid(cfg, t, i) && t.bookings == s.bookings
    && t.refunds == s.refunds + [RefundRow(i, b.hotel, part, Refunded)] && NoLaterRefund(t)
    && Ledger.Post(s.books, Ledger.RefundSucceeded(|s.refunds|), Ledger.RefundLines(part, b.hotel, cfg.feeRate))
       == Ok(t.books)
  }

  /** The refusal of a second cancellation is no obstacle once the webhook has reopened the booking. */
  lemma OneRound(cfg: Config, s: State, i: nat, part: int)
    requires Paid(cfg, s, i) && 0 < part <= s.bookings[i].total && Share(part, cfg.feeRate) <= part && NoLaterRefund(s)
    ensures RoundDone(cfg, s, Round(cfg, s, i, s.bookings[i].buyer, part), i, part)
  {
    var b := s.bookings[i];
    var key, lines := Ledger.RefundSucceeded(|s.refunds|), Ledger.RefundLines(part, b.hotel, cfg.feeRate);
    Ledger.RefundAcceptedExactly(part, b.hotel, cfg.feeRate);
    ReservationPayments.PostTouchesOneGroup(s.books, key, lines, Ledger.PaymentSucceeded(i));
    Ledger.PostedRefund(s.books, |s.refunds|, part, b.hotel, cfg.feeRate);
  }

  function RowsOf(i: nat, hotel: nat, parts: seq<int>): seq<RefundRow> {
    seq(|parts|, k requires 0 <= k < |parts| => RefundRow(i, hotel, parts[k], Refunded))
  }

  /** From s to t, all parts were refunded, one after another. */
  ghost predicate RoundsDone(cfg: Config, s: State, t: State, i: nat, parts: seq<int>)
    requires i < |s.bookings|
  {
    && Paid(cfg, t, i) && t.bookings == s.bookings
    && t.refunds == s.refunds + RowsOf(i, s.bookings[i].hotel, parts) && NoLaterRefund(t)
    && t.books == Ledger.PostRefunds(s.books, |s.refunds|, parts, s.bookings[i].hotel, cfg.feeRate)
  }

  lemma RoundAdded(cfg: Config, s: State, mid: State, t: State, i: nat, parts: seq<int>)
    requires i < |s.bookings| && parts != []
    requires RoundsDone(cfg, s, mid, i, parts[..|parts| - 1]) && RoundDone(cfg, mid, t, i, parts[|parts| - 1])
    ensures RoundsDone(cfg, s, t, i, parts)
  {
  }

  lemma {:induction false} RefundsRepeat(cfg: Config, s: State, i: nat, parts: seq<int>)
    requires Paid(cfg, s, i) && NoLaterRefund(s) && Ledger.Refundable(parts, cfg.feeRate)
    requires forall k | 0 <= k < |parts| :: parts[k] <= s.bookings[i].total
    ensures RoundsDone(cfg, s, Run(cfg, s, RefundRounds(i, s.bookings[i].buyer, parts)), i, parts)
  {
    if parts != [] {
      var n, buyer := |parts| - 1, s.bookings[i].buyer;
      var mid := Run(cfg, s, RefundRounds(i, buyer, parts[..n]));
      RefundsRepeat(cfg, s, i, parts[..n]);
      LastRound(cfg, s, i, buyer, parts);
      OneRound(cfg, mid, i, parts[n]);
      RoundAdded(cfg, s, mid, Round(cfg, mid, i, buyer, parts[n]), i, parts);
    }
  }

  lemma LastRound(cfg: Config, s: State, i: nat, buyer: nat, parts: seq<int>)
    requires parts != []
    ensures Run(cfg, s, RefundRounds(i, buyer, parts))
         == Round(cfg, Run(cfg, s, RefundRounds(i, buyer, parts[..|parts| - 1])), i, buyer, parts[|parts| - 1])
  {
    var before := RefundRounds(i, buyer, parts[..|parts| - 1]);
    var cancel, webhook := OnCancel(i, buyer, Some(parts[|parts| - 1]), RefundDone), OnPaymentSucceeded(i, false);
    assert before + [cancel, webhook] == (before + [cancel]) + [webhook];
    RunSnoc(cfg, s, before + [cancel], webhook);
    RunSnoc(cfg, s, before, cancel);
  }

  /** What the engine can be driven to, from an empty table: for every price and every list of refunds, none of
      them above the payment, one run posts the payment and then exactly these refunds.  It overdraws the
      revenue account exactly when the fees reversed exceed the fee earned, the payable account exactly when
      the rest of the refunds exceeds the rest of the payment, and cash exactly when more is returned than
      was paid. */
  lemma EngineOverdrawsExactly(cfg: Config, price: nat, parts: seq<int>)
    requires var total := Pricing.Total(price, cfg.rates);
             && 0 < total && Share(total, cfg.feeRate) <= total && Ledger.Refundable(parts, cfg.feeRate)
             && forall k | 0 <= k < |parts| :: parts[k] <= total
    ensures var total, fees := Pricing.Total(price, cfg.rates), SumOfShares(parts, cfg.feeRate);
            var books := Run(cfg, Start(0, OneRoom(price)), PayingGuest() + RefundRounds(0, 0, parts)).books;
            && (Ledger.Net(books, Ledger.PlatformRevenue) <= 0 <==> fees <= Share(total, cfg.feeRate))
            && (Ledger.Net(books, Ledger.HotelPayable(0)) <= 0
                <==> Money.Sum(parts) - fees <= total - Share(total, cfg.feeRate))
            && (0 <= Ledger.Net(books, Ledger.PlatformCash) <==> Money.Sum(parts) <= total)
  {
    var s := PaidGuest(cfg, price);
    RunAppend(cfg, Start(0, OneRoom(price)), PayingGuest(), RefundRounds(0, 0, parts));
    RefundsRepeat(cfg, s, 0, parts);
    Ledger.RefundsOverdrawExactly([], 0, 0, s.bookings[0].total, parts, 0, cfg.feeRate);
  }

  lemma PaidGuest(cfg: Config, price: nat) returns (s: State)
    requires var total := Pricing.Total(price, cfg.rates); 0 < total && Share(total, cfg.feeRate) <= total
    ensures s == Run(cfg, Start(0, OneRoom(price)), PayingGuest())
    ensures Paid(cfg, s, 0) && s.refunds == [] && NoLaterRefund(s)
    ensures |s.bookings| == 1 && SameTerms(GuestBooking(cfg, price), s.bookings[0])
    ensures s.bookings[0].rooms == Request() && s.bookings[0].checkIn == 0
            && s.bookings[0].checkOut == 1 && s.bookings[0].commission == 0
    ensures s.rows == Counters(price, 1, 0)
    ensures Ledger.Post([], Ledger.PaymentSucceeded(0), Ledger.PaymentLines(s.bookings[0].total, 0, cfg.feeRate))
            == Ok(s.books)
  {
    s := Run(cfg, Start(0, OneRoom(price)), PayingGuest());
    GuestPays(cfg, price);
    var lines := Ledger.PaymentLines(s.bookings[0].total, 0, cfg.feeRate);
    Ledger.PaymentAcceptedExactly(s.bookings[0].total, 0, cfg.feeRate);
    forall id: nat ensures Ledger.EntriesOf(s.books, Ledger.RefundSucceeded(id)) == [] {
      ReservationPayments.PostTouchesOneGroup([], Ledger.PaymentSucceeded(0), lines, Ledger.RefundSucceeded(id));
    }
  }

  /** The guest after any refunds: paid and confirmed as before. */
  lemma RefundedGuest(cfg: Config, price: nat, parts: seq<int>) returns (s: State)
    requires var total := Pricing.Total(price, cfg.rates);
             && 0 < total && Share(total, cfg.feeRate) <= total && Ledger.Refundable(parts, cfg.feeRate)
             && forall k | 0 <= k < |parts| :: parts[k] <= total
    ensures s == Run(cfg, Start(0, OneRoom(price)), PayingGuest() + RefundRounds(0, 0, parts))
    ensures |s.bookings| == 1 && Paid(cfg, s, 0) && s.refunds == RowsOf(0, 0, parts)
    ensures SameTerms(GuestBooking(cfg, price), s.bookings[0])
            && s.bookings[0].checkIn == 0 && s.bookings[0].commission == 0
  {
    var paid := PaidGuest(cfg, price);
    s := Run(cfg, paid, RefundRounds(0, 0, parts));
    RunAppend(cfg, Start(0, OneRoom(price)), PayingGuest(), RefundRounds(0, 0, parts));
    RefundsRepeat(cfg, paid, 0, parts);
  }

  // ---- How much is paid back for one booking ----

  /** What the table of refunds says has been paid back for a booking. */
  function RefundedOf(refunds: seq<RefundRow>, i: nat): int {
    if refunds == [] then 0
    else
      var last := refunds[|refunds| - 1];
      RefundedOf(refunds[..|refunds| - 1], i) + if last.booking == i && last.state.Refunded? then last.amount else 0
  }

  /** What the provider has paid back at once because the payment came after expiry. */
  function LateOf(late: seq<LatePayment>, i: nat): nat {
    if late == [] then 0
    else
      var last := late[|late| - 1];
      LateOf(late[..|late| - 1], i) + if last.booking == i && last.refunded then last.amount else 0
  }

  function PaidBackOf(s: State, i: nat): int {
    RefundedOf(s.refunds, i) + LateOf(s.late, i)
  }

  lemma RefundedAppended(refunds: seq<RefundRow>, row: RefundRow, i: nat)
    ensures RefundedOf(refunds + [row], i) == RefundedOf(refunds, i)
            + if row.booking == i && row.state.Refunded? then row.amount else 0
  {
    assert (refunds + [row])[..|refunds|] == refunds;
  }

  lemma LateAppended(late: seq<LatePayment>, p: LatePayment, i: nat)
    ensures LateOf(late + [p], i) == LateOf(late, i) + if p.booking == i && p.refunded then p.amount else 0
  {
    assert (late + [p])[..|late|] == late;
  }

  /** A cancellation that is not refused and that the provider and the ledger accept to refund; whether the
      booking was ever charged is not looked at here. */
  predicate CancelCanRefund(cfg: Config, s: State, e: Event, i: nat) {
    && e.OnCancel? && e.cancelled == i && i < |s.bookings| && e.byUser == s.bookings[i].buyer
    && !s.bookings[i].status.Cancelled? && !s.bookings[i].status.StayCompleted?
    && e.provider.RefundDone? && e.refundCents.Some? && Fits(cfg, RefundAmount(s, e, i))
    && 0 < e.refundCents.value
  }

  function RefundAmount(s: State, e: Event, i: nat): int
    requires e.OnCancel? && e.refundCents.Some? && i < |s.bookings|
  {
    if e.refundCents.value <= s.bookings[i].total then e.refundCents.value else s.bookings[i].total
  }

  /** A success webhook for an expired booking, whose refund the provider accepts. */
  predicate LateRefund(s: State, e: Event, i: nat) {
    && e.OnPaymentSucceeded? && e.paid == i && i < |s.bookings| && e.refunded
    && s.bookings[i].status.BookingExpired? && !s.bookings[i].tx.TxCompleted?
  }

  /** What an event pays back for a booking, read from the state before it. */
  function PaysBack(cfg: Config, s: State, e: Event, i: nat): nat {
    if CancelCanRefund(cfg, s, e, i) && s.bookings[i].charged then RefundAmount(s, e, i)
    else if LateRefund(s, e, i) && s.bookings[i].total > 0 then s.bookings[i].total
    else 0
  }

  lemma CancelPaysBack(cfg: Config, s: State, e: Event, i: nat)
    requires RefundsSound(cfg, s) && e.OnCancel?
    ensures RefundedOf(Step(cfg, s, e).refunds, i) == RefundedOf(s.refunds, i) + PaysBack(cfg, s, e, i)
  {
    CancelRowOf(cfg, s, e.cancelled, e.byUser, e.refundCents, e.provider, i);
  }

  /** What cancelBooking adds for a booking. */
  lemma CancelRowOf(cfg: Config, s: State, k: nat, user: nat, cents: Option<int>, provider: ProviderRefund, i: nat)
    requires RefundsSound(cfg, s)
    ensures RefundedOf(CancelBooking(cfg, s, k, user, cents, provider).0.refunds, i)
         == RefundedOf(s.refunds, i) + PaysBack(cfg, s, OnCancel(k, user, cents, provider), i)
  {
    if k < |s.bookings| && cents.Some? && cents.value > 0 {
      RefundRowOf(cfg, s, k, cents.value, provider, i);
    }
  }

  /** What processRefund adds for a booking. */
  lemma RefundRowOf(cfg: Config, s: State, k: nat, cents: int, provider: ProviderRefund, i: nat)
    requires RefundsSound(cfg, s) && k < |s.bookings|
    ensures var b := s.bookings[k];
            var amount := if cents <= b.total then cents else b.total;
            RefundedOf(ProcessRefund(cfg, s, k, cents, provider).refunds, i)
            == RefundedOf(s.refunds, i) + if k == i && b.charged && provider.RefundDone? && Fits(cfg, amount)
               then amount else 0
  {
    var b, t := s.bookings[k], ProcessRefund(cfg, s, k, cents, provider);
    var amount := if cents <= b.total then cents else b.total;
    Ledger.RefundAcceptedExactly(amount, b.hotel, cfg.feeRate);
    if b.charged {
      RefundedAppended(s.refunds, t.refunds[|s.refunds|], i);
    }
  }

  lemma WebhookPaysBack(cfg: Config, s: State, e: Event, i: nat)
    requires e.OnPaymentSucceeded?
    ensures LateOf(Step(cfg, s, e).late, i) == LateOf(s.late, i) + PaysBack(cfg, s, e, i)
  {
    var t := Step(cfg, s, e);
    if t.late != s.late {
      LateAppended(s.late, t.late[|s.late|], i);
    }
  }

  lemma OnlyWebhooksAreLate(cfg: Config, s: State, e: Event)
    requires !e.OnPaymentSucceeded?
    ensures Step(cfg, s, e).late == s.late
  {
  }

  lemma StepPaysBack(cfg: Config, s: State, e: Event, i: nat)
    requires RefundsSound(cfg, s)
    ensures PaidBackOf(Step(cfg, s, e), i) == PaidBackOf(s, i) + PaysBack(cfg, s, e, i)
  {
    if e.OnPaymentSucceeded? {
      OnlyCancelRefunds(cfg, s, e);
      WebhookPaysBack(cfg, s, e, i);
    } else {
      OnlyWebhooksAreLate(cfg, s, e);
      if e.OnCancel? {
        CancelPaysBack(cfg, s, e, i);
      } else {
        OnlyCancelRefunds(cfg, s, e);
      }
    }
  }

  lemma StepKeepsRefundsSound(cfg: Config, s: State, e: Event)
    requires RefundsSound(cfg, s)
    ensures RefundsSound(cfg, Step(cfg, s, e))
  {
    match e
    case OnPaymentSucceeded(i, refunded) => WebhookKeepsRefundsSound(cfg, s, i, refunded);
    case OnCancel(i, user, cents, provider) => CancelKeepsRefundsSound(cfg, s, i, user, cents, provider);
    case _ =>
      ReservationPayments.LedgerUntouched(cfg, s, e);
      OnlyCancelRefunds(cfg, s, e);
  }

  lemma WebhookKeepsRefundsSound(cfg: Config, s: State, i: nat, refunded: bool)
    requires RefundsSound(cfg, s)
    ensures RefundsSound(cfg, HandlePaymentSucceeded(cfg, s, i, refunded).0)
  {
    var t := HandlePaymentSucceeded(cfg, s, i, refunded).0;
    if t.books != s.books {
      var lines := Ledger.PaymentLines(s.bookings[i].total, s.bookings[i].hotel, cfg.feeRate);
      PostedOnce(s.books, t.books, Ledger.PaymentSucceeded(i), lines, Ledger.PlatformCash);
    }
  }

  lemma CancelKeepsRefundsSound(cfg: Config, s: State, i: nat, user: nat, cents: Option<int>, provider: ProviderRefund)
    requires RefundsSound(cfg, s)
    ensures RefundsSound(cfg, CancelBooking(cfg, s, i, user, cents, provider).0)
  {
    if CancelBooking(cfg, s, i, user, cents, provider).1.Accepted?
        && cents.Some? && cents.value > 0 && s.bookings[i].charged {
      var mid := ProcessRefund(cfg, s, i, cents.value, provider);
      RefundAddsRow(cfg, s, i, cents.value, provider);
      RowKeepsRefundsSound(cfg, s, mid);
    }
  }

  lemma {:induction false} RunKeepsRefundsSound(cfg: Config, s: State, events: seq<Event>)
    requires RefundsSound(cfg, s)
    ensures RefundsSound(cfg, Run(cfg, s, events))
  {
    if events != [] {
      var n := |events| - 1;
      RunKeepsRefundsSound(cfg, s, events[..n]);
      StepKeepsRefundsSound(cfg, Run(cfg, s, events[..n]), events[n]);
    }
  }

  /** What the events of a run pay back for a booking, each read from the state before it. */
  function PaidBackIn(cfg: Config, s: State, events: seq<Event>, i: nat): nat {
    if events == [] then 0
    else
      var init := events[..|events| - 1];
      PaidBackIn(cfg, s, init, i) + PaysBack(cfg, Run(cfg, s, init), events[|events| - 1], i)
  }

  /** Every cent paid back for a booking in a run is one of a cancellation or of a late webhook, under exactly
      these guards. */
  lemma {:induction false} RunPaysBack(cfg: Config, now: int, rows: Table, events: seq<Event>, i: nat)
    ensures PaidBackOf(Run(cfg, Start(now, rows), events), i) == PaidBackIn(cfg, Start(now, rows), events, i)
  {
    if events != [] {
      var n := |events| - 1;
      RunPaysBack(cfg, now, rows, events[..n], i);
      RunKeepsRefundsSound(cfg, Start(now, rows), events[..n]);
      StepPaysBack(cfg, Run(cfg, Start(now, rows), events[..n]), events[n], i);
    }
  }

  // ---- When more can be paid back than was charged ----

  /** The event takes a cancelled booking out of that status: a success webhook whose transaction is not marked
      completed and whose payment is or can be posted, or a failure webhook not recorded before. */
  predicate Reopens(cfg: Config, s: State, e: Event, i: nat) {
    && i < |s.bookings| && s.bookings[i].status.Cancelled?
    && match e
       case OnPaymentSucceeded(k, _) => k == i && !s.bookings[i].tx.TxCompleted?
           && ReservationPayments.Postable(cfg, s, i)
       case OnPaymentFailed(k) => k == i && !s.bookings[i].tx.TxFailed?
       case _ => false
  }

  /** The event pays back for an expired booking whose late payment has been paid back, or takes it out of that
      status by a failure webhook. */
  predicate RepaysLate(cfg: Config, s: State, e: Event, i: nat) {
    && i < |s.bookings| && s.bookings[i].status.BookingExpired? && LateOf(s.late, i) > 0
    && (PaysBack(cfg, s, e, i) > 0 || (e == OnPaymentFailed(i) && !s.bookings[i].tx.TxFailed?))
  }

  lemma WebhookLeavesCancelled(cfg: Config, s: State, i: nat, e: Event)
    requires i < |s.bookings| && s.bookings[i].status.Cancelled? && (e.OnPaymentSucceeded? || e.OnPaymentFailed?)
    ensures i < |Step(cfg, s, e).bookings|
            && (!Step(cfg, s, e).bookings[i].status.Cancelled? <==> Reopens(cfg, s, e, i))
  {
    ReservationPayments.PostableExactly(cfg, s, i);
  }

  /** Cancelled and completed bookings, which cancelBooking refuses. */
  predicate Closed(b: Booking) {
    b.status.Cancelled? || b.status.StayCompleted?
  }

  lemma OthersKeepClosed(cfg: Config, s: State, i: nat, e: Event)
    requires i < |s.bookings| && Closed(s.bookings[i])
             && !(e.OnPaymentSucceeded? && e.paid == i) && !(e.OnPaymentFailed? && e.failed == i)
    ensures i < |Step(cfg, s, e).bookings| && Closed(Step(cfg, s, e).bookings[i])
    ensures s.bookings[i].status.Cancelled? ==> Step(cfg, s, e).bookings[i].status.Cancelled?
  {
    if e.OnCancel? {
      CancelsKeepClosed(cfg, s, i, e);
    } else if e.OnRefundSucceeded? {
      RefundsKeepClosed(cfg, s, i, e);
    } else {
      ReservationPayments.QuietStep(cfg, s, e, i);
      if e.OnAdvanceStays? {
        AdvanceKeepsClosed(cfg, s, i, e);
      }
    }
  }

  lemma AdvanceKeepsClosed(cfg: Config, s: State, i: nat, e: Event)
    requires i < |s.bookings| && Closed(s.bookings[i]) && e.OnAdvanceStays?
    ensures i < |Step(cfg, s, e).bookings| && Step(cfg, s, e).bookings[i] == s.bookings[i]
  {
  }

  lemma CancelsKeepClosed(cfg: Config, s: State, i: nat, e: Event)
    requires i < |s.bookings| && Closed(s.bookings[i]) && e.OnCancel?
    ensures i < |Step(cfg, s, e).bookings| && Step(cfg, s, e).bookings[i] == s.bookings[i]
  {
    if e.cancelled != i {
      ReservationPayments.QuietPaymentStep(cfg, s, e, i);
    }
  }

  lemma RefundsKeepClosed(cfg: Config, s: State, i: nat, e: Event)
    requires i < |s.bookings| && Closed(s.bookings[i]) && e.OnRefundSucceeded?
    ensures i < |Step(cfg, s, e).bookings| && Closed(Step(cfg, s, e).bookings[i])
    ensures s.bookings[i].status.Cancelled? ==> Step(cfg, s, e).bookings[i].status.Cancelled?
  {
  }

  /** A cancelled booking stays cancelled through every event but these. */
  lemma LeavesCancelledExactly(cfg: Config, s: State, e: Event, i: nat)
    requires i < |s.bookings| && s.bookings[i].status.Cancelled?
    ensures i < |Step(cfg, s, e).bookings|
            && (!Step(cfg, s, e).bookings[i].status.Cancelled? <==> Reopens(cfg, s, e, i))
  {
    if e.OnPaymentSucceeded? || e.OnPaymentFailed? {
      WebhookLeavesCancelled(cfg, s, i, e);
    } else {
      OthersKeepClosed(cfg, s, i, e);
    }
  }

  /** An expired booking whose late payment was paid back, through an event that does not repay it. */
  lemma LateStaysLate(cfg: Config, s: State, e: Event, i: nat)
    requires i < |s.bookings| && s.bookings[i].status.BookingExpired? && !s.bookings[i].tx.TxCompleted?
    requires !(e == OnPaymentFailed(i) && !s.bookings[i].tx.TxFailed?)
    ensures var t := Step(cfg, s, e);
            i < |t.bookings| && (t.bookings[i].status.Cancelled? || t.bookings[i].status.BookingExpired?)
    ensures !Step(cfg, s, e).bookings[i].tx.TxCompleted?
  {
    if e.OnPaymentSucceeded? || e.OnPaymentFailed? || e.OnCancel? || e.OnRefundSucceeded? {
      DisturbedStaysLate(cfg, s, e, i);
    } else {
      ReservationPayments.QuietStep(cfg, s, e, i);
    }
  }

  lemma DisturbedStaysLate(cfg: Config, s: State, e: Event, i: nat)
    requires i < |s.bookings| && s.bookings[i].status.BookingExpired? && !s.bookings[i].tx.TxCompleted?
    requires e.OnPaymentSucceeded? || (e.OnPaymentFailed? && (e.failed == i ==> s.bookings[i].tx.TxFailed?))
             || e.OnCancel? || e.OnRefundSucceeded?
    ensures var t := Step(cfg, s, e);
            i < |t.bookings| && (t.bookings[i].status.Cancelled? || t.bookings[i].status.BookingExpired?)
    ensures !Step(cfg, s, e).bookings[i].tx.TxCompleted?
  {
    if e.OnCancel? {
      CancelStaysLate(cfg, s, e, i);
    } else if e.OnRefundSucceeded? {
      NoticeStaysLate(cfg, s, e, i);
    }
  }

  lemma NoticeStaysLate(cfg: Config, s: State, e: Event, i: nat)
    requires i < |s.bookings| && s.bookings[i].status.BookingExpired?
             && !s.bookings[i].tx.TxCompleted? && e.OnRefundSucceeded?
    ensures var t := Step(cfg, s, e);
            i < |t.bookings| && (t.bookings[i].status.Cancelled? || t.bookings[i].status.BookingExpired?)
    ensures !Step(cfg, s, e).bookings[i].tx.TxCompleted?
  {
  }

  lemma CancelStaysLate(cfg: Config, s: State, e: Event, i: nat)
    requires i < |s.bookings| && s.bookings[i].status.BookingExpired? && !s.bookings[i].tx.TxCompleted? && e.OnCancel?
    ensures var t := Step(cfg, s, e);
            i < |t.bookings| && (t.bookings[i].status.Cancelled? || t.bookings[i].status.BookingExpired?)
    ensures !Step(cfg, s, e).bookings[i].tx.TxCompleted?
  {
    if e.cancelled != i {
      ReservationPayments.QuietPaymentStep(cfg, s, e, i);
    } else if e.refundCents.Some? {
      RefundKeepsTerms(cfg, s, i, e.refundCents.value, e.provider, i);
    }
  }

  /** Nothing was paid back, or no more than was charged and the booking has ended for it. */
  ghost predicate PaidBackOnce(s: State, i: nat) {
    || (RefundedOf(s.refunds, i) == 0 && LateOf(s.late, i) == 0)
    || (&& i < |s.bookings| && PaidBackOf(s, i) <= s.bookings[i].total
        && var b := s.bookings[i];
        b.status.Cancelled? || (b.status.BookingExpired? && LateOf(s.late, i) > 0 && !b.tx.TxCompleted?))
  }

  lemma PartsGrow(cfg: Config, s: State, e: Event, i: nat)
    requires RefundsSound(cfg, s)
    ensures RefundedOf(s.refunds, i) <= RefundedOf(Step(cfg, s, e).refunds, i)
            && LateOf(s.late, i) <= LateOf(Step(cfg, s, e).late, i)
  {
    if e.OnPaymentSucceeded? {
      OnlyCancelRefunds(cfg, s, e);
      WebhookPaysBack(cfg, s, e, i);
    } else {
      OnlyWebhooksAreLate(cfg, s, e);
      if e.OnCancel? {
        CancelPaysBack(cfg, s, e, i);
      } else {
        OnlyCancelRefunds(cfg, s, e);
      }
    }
  }

  /** Paying back ends the booking. */
  lemma PayingBackEnds(cfg: Config, s: State, e: Event, i: nat)
    requires PaysBack(cfg, s, e, i) > 0
    ensures i < |s.bookings| && PaysBack(cfg, s, e, i) <= s.bookings[i].total
    ensures var t := Step(cfg, s, e);
            && i < |t.bookings|
            && if e.OnCancel? then t.bookings[i].status.Cancelled?
               else t.bookings[i].status.BookingExpired? && !t.bookings[i].tx.TxCompleted? && LateOf(t.late, i) > 0
  {
    if !e.OnCancel? {
      WebhookPaysBack(cfg, s, e, i);
    }
  }

  lemma StepPaysBackOnce(cfg: Config, s: State, e: Event, i: nat)
    requires RefundsSound(cfg, s) && PaidBackOnce(s, i) && !Reopens(cfg, s, e, i) && !RepaysLate(cfg, s, e, i)
    ensures PaidBackOnce(Step(cfg, s, e), i)
  {
    StepPaysBack(cfg, s, e, i);
    PartsGrow(cfg, s, e, i);
    if i < |s.bookings| {
      StepKeepsTerms(cfg, s, e, i);
    }
    if RefundedOf(s.refunds, i) == 0 && LateOf(s.late, i) == 0 {
      if PaysBack(cfg, s, e, i) > 0 {
        PayingBackEnds(cfg, s, e, i);
      }
    } else if s.bookings[i].status.Cancelled? {
      LeavesCancelledExactly(cfg, s, e, i);
    } else {
      LateStaysLate(cfg, s, e, i);
    }
  }

  /** No event of the run reopens the booking or pays a late payment back again. */
  ghost predicate NeverRepaid(cfg: Config, s: State, events: seq<Event>, i: nat) {
    events != [] ==>
      var init, e := events[..|events| - 1], events[|events| - 1];
      NeverRepaid(cfg, s, init, i) && !Reopens(cfg, Run(cfg, s, init), e, i)
          && !RepaysLate(cfg, Run(cfg, s, init), e, i)
  }

  lemma {:induction false} RunPaysBackOnce(cfg: Config, now: int, rows: Table, events: seq<Event>, i: nat)
    requires NeverRepaid(cfg, Start(now, rows), events, i)
    ensures PaidBackOnce(Run(cfg, Start(now, rows), events), i)
  {
    if events != [] {
      var n := |events| - 1;
      RunPaysBackOnce(cfg, now, rows, events[..n], i);
      RunKeepsRefundsSound(cfg, Start(now, rows), events[..n]);
      StepPaysBackOnce(cfg, Run(cfg, Start(now, rows), events[..n]), events[n], i);
    }
  }

  /** In every run that neither reopens a cancelled booking nor pays a late payment back a second time, no more
      is paid back for it, by refunds and by the provider at once, than was charged. */
  lemma RefundsWithinPayment(cfg: Config, now: int, rows: Table, events: seq<Event>, i: nat)
    ensures var s := Run(cfg, Start(now, rows), events);
            NeverRepaid(cfg, Start(now, rows), events, i) ==>
              PaidBackOf(s, i) == 0 || (i < |s.bookings| && PaidBackOf(s, i) <= s.bookings[i].total)
  {
    if NeverRepaid(cfg, Start(now, rows), events, i) {
      RunPaysBackOnce(cfg, now, rows, events, i);
    }
  }

  predicate NoWebhook(events: seq<Event>, i: nat) {
    forall k | 0 <= k < |events| ::
      && (events[k].OnPaymentSucceeded? ==> events[k].paid != i)
      && (events[k].OnPaymentFailed? ==> events[k].failed != i)
  }

  lemma {:induction false} ClosedStaysPaidBack(cfg: Config, s: State, events: seq<Event>, i: nat)
    requires RefundsSound(cfg, s) && i < |s.bookings| && Closed(s.bookings[i]) && NoWebhook(events, i)
    ensures var t := Run(cfg, s, events);
            i < |t.bookings| && Closed(t.bookings[i]) && PaidBackOf(t, i) == PaidBackOf(s, i)
  {
    if events != [] {
      var n := |events| - 1;
      ClosedStaysPaidBack(cfg, s, events[..n], i);
      RunKeepsRefundsSound(cfg, s, events[..n]);
      StepPaysBack(cfg, Run(cfg, s, events[..n]), events[n], i);
      OthersKeepClosed(cfg, Run(cfg, s, events[..n]), i, events[n]);
    }
  }

  /** A booking for which everything has been paid back is safe from more, as long as no webhook about it comes,
      exactly in the two statuses that cancelBooking refuses.  Expired is not one of them. */
  lemma NoFurtherRefundExactly(cfg: Config, s: State, i: nat)
    requires RefundsSound(cfg, s) && i < |s.bookings| && s.bookings[i].charged
    requires PaidBackOf(s, i) == s.bookings[i].total && Fits(cfg, s.bookings[i].total)
    ensures (forall more | NoWebhook(more, i) :: PaidBackOf(Run(cfg, s, more), i) <= s.bookings[i].total)
            <==> s.bookings[i].status.Cancelled? || s.bookings[i].status.StayCompleted?
  {
    var b := s.bookings[i];
    if Closed(b) {
      forall more | NoWebhook(more, i) ensures PaidBackOf(Run(cfg, s, more), i) <= b.total {
        ClosedStaysPaidBack(cfg, s, more, i);
      }
    } else {
      var more := [OnCancel(i, b.buyer, Some(b.total), RefundDone)];
      StepPaysBack(cfg, s, more[0], i);
      RunOfOne(cfg, s, more[0]);
      assert NoWebhook(more, i) && PaidBackOf(Run(cfg, s, more), i) > b.total;
    }
  }

  /** So after an event on a cancelled booking that is paid back in full, more can be paid back without further
      webhooks exactly when that event reopened it. */
  lemma SecondRefundExactlyAfterReopening(cfg: Config, s: State, e: Event, i: nat)
    requires RefundsSound(cfg, s) && i < |s.bookings| && s.bookings[i].status.Cancelled? && s.bookings[i].charged
    requires PaidBackOf(s, i) == s.bookings[i].total && Fits(cfg, s.bookings[i].total)
    ensures (forall more | NoWebhook(more, i) :: PaidBackOf(Run(cfg, Step(cfg, s, e), more), i) <= s.bookings[i].total)
            <==> !Reopens(cfg, s, e, i)
  {
    var t := Step(cfg, s, e);
    LeavesCancelledExactly(cfg, s, e, i);
    StepKeepsTerms(cfg, s, e, i);
    StepKeepsRefundsSound(cfg, s, e);
    StepPaysBack(cfg, s, e, i);
    ReopenedNotCompleted(cfg, s, e, i);
    NoFurtherRefundExactly(cfg, t, i);
  }

  /** Reopening never ends in a completed stay, and a charge is never forgotten. */
  lemma ReopenedNotCompleted(cfg: Config, s: State, e: Event, i: nat)
    requires i < |s.bookings| && s.bookings[i].status.Cancelled? && s.bookings[i].charged
    ensures i < |Step(cfg, s, e).bookings| && Step(cfg, s, e).bookings[i].charged
    ensures Reopens(cfg, s, e, i) ==> !Closed(Step(cfg, s, e).bookings[i])
  {
    StepKeepsTerms(cfg, s, e, i);
    if Reopens(cfg, s, e, i) {
      LeavesCancelledExactly(cfg, s, e, i);
    }
  }

  // ---- Refunds without a payment ----

  /** A success webhook found the booking expired. */
  predicate LateSeen(late: seq<LatePayment>, i: nat) {
    exists k | 0 <= k < |late| :: late[k].booking == i
  }

  lemma LateSeenAppended(late: seq<LatePayment>, p: LatePayment, i: nat)
    ensures LateSeen(late + [p], i) <==> LateSeen(late, i) || p.booking == i
  {
    if LateSeen(late, i) {
      var k :| 0 <= k < |late| && late[k].booking == i;
      assert (late + [p])[k].booking == i;
    }
    assert (late + [p])[|late|] == p;
    if LateSeen(late + [p], i) && p.booking != i {
      var k :| 0 <= k < |late| + 1 && (late + [p])[k].booking == i;
      assert late[k].booking == i;
    }
  }

  /** A booking is charged exactly if its payment is posted or a payment came late. */
  ghost predicate ChargeExplained(s: State, i: nat) {
    var posted := Ledger.EntriesOf(s.books, Ledger.PaymentSucceeded(i)) != [];
    if i < |s.bookings| then s.bookings[i].charged <==> posted || LateSeen(s.late, i)
    else !posted && !LateSeen(s.late, i)
  }

  lemma WebhookExplainsCharge(cfg: Config, s: State, i: nat, refunded: bool)
    requires ChargeExplained(s, i)
    ensures ChargeExplained(HandlePaymentSucceeded(cfg, s, i, refunded).0, i)
  {
    var t := HandlePaymentSucceeded(cfg, s, i, refunded).0;
    if i < |s.bookings| {
      var b := s.bookings[i];
      if t.late != s.late {
        LateSeenAppended(s.late, t.late[|s.late|], i);
      } else if t.books != s.books {
        PostedOnce(s.books, t.books, Ledger.PaymentSucceeded(i),
                   Ledger.PaymentLines(b.total, b.hotel, cfg.feeRate), Ledger.PlatformCash);
      }
    }
  }

  lemma OtherLate(cfg: Config, s: State, e: Event, i: nat)
    requires !(e.OnPaymentSucceeded? && e.paid == i)
    ensures LateSeen(Step(cfg, s, e).late, i) <==> LateSeen(s.late, i)
  {
    if e.OnPaymentSucceeded? {
      var t := Step(cfg, s, e);
      if t.late != s.late {
        LateSeenAppended(s.late, t.late[|s.late|], i);
      }
    } else {
      OnlyWebhooksAreLate(cfg, s, e);
    }
  }

  lemma StepExplainsCharge(cfg: Config, s: State, e: Event, i: nat)
    requires ChargeExplained(s, i)
    ensures ChargeExplained(Step(cfg, s, e), i)
  {
    if e.OnPaymentSucceeded? && e.paid == i {
      WebhookExplainsCharge(cfg, s, i, e.refunded);
    } else {
      ReservationPayments.OtherGroupsKept(cfg, s, e, i);
      OtherLate(cfg, s, e, i);
      ChargeUnchanged(cfg, s, e, i);
    }
  }

  lemma ChargeUnchanged(cfg: Config, s: State, e: Event, i: nat)
    requires !(e.OnPaymentSucceeded? && e.paid == i)
    ensures var t := Step(cfg, s, e);
            if i < |s.bookings| then i < |t.bookings| && t.bookings[i].charged == s.bookings[i].charged
            else i < |t.bookings| ==> !t.bookings[i].charged
  {
    if i < |s.bookings| {
      StepKeepsTerms(cfg, s, e, i);
    } else {
      match e
      case OnFinishBooking(id) =>
      case OnPaymentIntent(payer, accepts) =>
      case _ => ReservationPayments.NoNewBooking(cfg, s, e);
    }
  }

  lemma {:induction false} RunExplainsCharge(cfg: Config, now: int, rows: Table, events: seq<Event>, i: nat)
    ensures ChargeExplained(Run(cfg, Start(now, rows), events), i)
  {
    if events != [] {
      var n := |events| - 1;
      RunExplainsCharge(cfg, now, rows, events[..n], i);
      StepExplainsCharge(cfg, Run(cfg, Start(now, rows), events[..n]), events[n], i);
    }
  }

  /** After every run, an event posts a refund for a booking whose payment is not posted exactly when it is a
      cancellation that can be refunded and every payment of the booking so far came after its expiry, at
      least one of them. */
  lemma RefundWithoutPaymentExactly(cfg: Config, now: int, rows: Table, events: seq<Event>, e: Event, i: nat)
    ensures var s := Run(cfg, Start(now, rows), events);
            var unposted := Ledger.EntriesOf(s.books, Ledger.PaymentSucceeded(i)) == [];
            (RefundedOf(Step(cfg, s, e).refunds, i) > RefundedOf(s.refunds, i) && unposted)
            <==> (CancelCanRefund(cfg, s, e, i) && LateSeen(s.late, i) && unposted)
  {
    var s := Run(cfg, Start(now, rows), events);
    RunKeepsRefundsSound(cfg, Start(now, rows), events);
    RunExplainsCharge(cfg, now, rows, events, i);
    if e.OnCancel? {
      CancelPaysBack(cfg, s, e, i);
    } else {
      OnlyCancelRefunds(cfg, s, e);
    }
  }

  /** From an empty table, without reopening anything: the payment comes after expiry and the provider pays it
      back at once; the guest cancels the expired booking and is refunded.  Twice the total has been paid back,
      one refund not above the payment is posted for a payment that is not, and it leaves the platform's
      revenue overdrawn by the fee and its cash by the total. */
  lemma LateGuestIsPaidBackTwice(cfg: Config, price: nat) returns (s0: State, s1: State, s2: State)
    requires Fits(cfg, Pricing.Total(price, cfg.rates))
    ensures var total := Pricing.Total(price, cfg.rates);
            var e1, e2 := OnPaymentSucceeded(0, true), OnCancel(0, 0, Some(total), RefundDone);
            && s0 == Run(cfg, Start(0, OneRoom(price)), LateGuest()) && !Reopens(cfg, s0, e1, 0)
            && s1 == Run(cfg, Start(0, OneRoom(price)), LateGuest() + [e1])
               && !Reopens(cfg, s1, e2, 0) && RepaysLate(cfg, s1, e2, 0)
            && s2 == Run(cfg, Start(0, OneRoom(price)), LateGuest() + [e1] + [e2])
            && PaidBackOf(s2, 0) == 2 * total && RefundedUnpaid(cfg, s2, total)
  {
    var total := Pricing.Total(price, cfg.rates);
    s0 := GuestIsLate(cfg, price);
    s1 := HandlePaymentSucceeded(cfg, s0, 0, true).0;
    s2 := CancelBooking(cfg, s1, 0, 0, Some(total), RefundDone).0;
    RunThenWebhook(cfg, Start(0, OneRoom(price)), LateGuest(), 0, true);
    RunThenCancel(cfg, Start(0, OneRoom(price)),
                  LateGuest() + [OnPaymentSucceeded(0, true)], 0, 0, Some(total), RefundDone);
    LateGuestPaid(cfg, s0, total);
    LateGuestCancels(cfg, s1, total);
  }

  lemma RunThenWebhook(cfg: Config, s: State, events: seq<Event>, i: nat, refunded: bool)
    ensures Run(cfg, s, events + [OnPaymentSucceeded(i, refunded)])
            == HandlePaymentSucceeded(cfg, Run(cfg, s, events), i, refunded).0
  {
    RunSnoc(cfg, s, events, OnPaymentSucceeded(i, refunded));
  }

  lemma RunThenCancel(cfg: Config, s: State, events: seq<Event>,
                      i: nat, user: nat, cents: Option<int>, provider: ProviderRefund)
    ensures Run(cfg, s, events + [OnCancel(i, user, cents, provider)])
            == CancelBooking(cfg, Run(cfg, s, events), i, user, cents, provider).0
  {
    RunSnoc(cfg, s, events, OnCancel(i, user, cents, provider));
  }

  /** One refund of the total, no payment: revenue is overdrawn by the fee and cash by the total. */
  ghost predicate RefundedUnpaid(cfg: Config, s: State, total: int) {
    && s.refunds == [RefundRow(0, 0, total, Refunded)]
    && Ledger.EntriesOf(s.books, Ledger.PaymentSucceeded(0)) == []
    && Ledger.Net(s.books, Ledger.PlatformCash) == -total
    && Ledger.Net(s.books, Ledger.PlatformRevenue) == Share(total, cfg.feeRate)
  }

  /** An expired booking of which the late payment has just been paid back. */
  ghost predicate LateAndPaidBack(s: State, total: int) {
    && |s.bookings| == 1 && s.books == [] && s.refunds == [] && LateOf(s.late, 0) == total
    && var b := s.bookings[0];
       b.total == total && b.hotel == 0 && b.buyer == 0 && b.charged && b.status.BookingExpired? && !b.tx.TxCompleted?
  }

  /** The late payment, paid back at once. */
  lemma LateGuestPaid(cfg: Config, s: State, total: int)
    requires |s.bookings| == 1 && s.books == [] && s.refunds == [] && s.late == [] && 0 < total
    requires var b := s.bookings[0];
             b.total == total && b.hotel == 0 && b.buyer == 0 && b.status.BookingExpired? && !b.tx.TxCompleted?
    ensures LateAndPaidBack(HandlePaymentSucceeded(cfg, s, 0, true).0, total)
  {
    LateAppended([], LatePayment(0, total, true), 0);
    assert [] + [LatePayment(0, total, true)] == [LatePayment(0, total, true)];
  }

  /** The cancellation after it. */
  lemma LateGuestCancels(cfg: Config, s: State, total: int)
    requires LateAndPaidBack(s, total) && Fits(cfg, total)
    ensures RepaysLate(cfg, s, OnCancel(0, 0, Some(total), RefundDone), 0)
    ensures var t := CancelBooking(cfg, s, 0, 0, Some(total), RefundDone).0;
            PaidBackOf(t, 0) == 2 * total && RefundedUnpaid(cfg, t, total)
  {
    UnpostedRefund(cfg, s, total);
  }

  /** A refund as the first posting of all. */
  lemma UnpostedRefund(cfg: Config, s: State, total: int)
    requires s.books == [] && s.refunds == [] && |s.bookings| == 1
             && s.bookings[0].charged && s.bookings[0].status.BookingExpired?
    requires s.bookings[0].total == total && s.bookings[0].hotel == 0 && s.bookings[0].buyer == 0 && Fits(cfg, total)
    ensures var t := CancelBooking(cfg, s, 0, 0, Some(total), RefundDone).0;
            RefundedUnpaid(cfg, t, total) && t.late == s.late && RefundedOf(t.refunds, 0) == total
  {
    Ledger.RefundAcceptedExactly(total, 0, cfg.feeRate);
    Ledger.PostedRefund([], 0, total, 0, cfg.feeRate);
    ReservationPayments.PostTouchesOneGroup([], Ledger.RefundSucceeded(0),
                                            Ledger.RefundLines(total, 0, cfg.feeRate), Ledger.PaymentSucceeded(0));
    RefundedAppended([], RefundRow(0, 0, total, Refunded), 0);
    assert [] + [RefundRow(0, 0, total, Refunded)] == [RefundRow(0, 0, total, Refunded)];
  }

  // ---- Success webhooks that repeat ----

  /** Repeating a success webhook, with whatever answer of the provider, changes nothing in the server's tables
      exactly if the booking was not marked expired at the first, or its transaction was completed already.  For
      an expired booking every repetition asks the provider for another refund and overwrites the record of
      the last. */
  lemma RepeatIsSafeExactly(cfg: Config, s: State, i: nat, first: bool)
    requires i < |s.bookings|
    ensures var t := HandlePaymentSucceeded(cfg, s, i, first).0;
            (forall again :: HandlePaymentSucceeded(cfg, t, i, again).0.(late := t.late) == t)
            <==> s.bookings[i].tx.TxCompleted? || !s.bookings[i].status.BookingExpired?
  {
    var b := s.bookings[i];
    var t := HandlePaymentSucceeded(cfg, s, i, first).0;
    if b.status.BookingExpired? && !b.tx.TxCompleted? {
      assert HandlePaymentSucceeded(cfg, t, i, !first).0.bookings[i].tx != t.bookings[i].tx;
    }
  }

  /** From an empty table: the provider pays a late payment back, the webhook comes again, the provider now
      refuses, and the record of the refund is gone. */
  lemma LateRefundIsForgotten(cfg: Config, price: nat)
    requires Pricing.Total(price, cfg.rates) > 0
    ensures var e1, e2 := OnPaymentSucceeded(0, true), OnPaymentSucceeded(0, false);
            var s1 := Run(cfg, Start(0, OneRoom(price)), LateGuest() + [e1]);
            var s2 := Run(cfg, Start(0, OneRoom(price)), LateGuest() + [e1, e2]);
            && |s1.bookings| == |s2.bookings| == 1
            && s1.bookings[0].tx.TxRefunded? && s2.bookings[0].tx.TxProcessing?
            && LateOf(s2.late, 0) == Pricing.Total(price, cfg.rates)
  {
    var total := Pricing.Total(price, cfg.rates);
    var e1, e2 := OnPaymentSucceeded(0, true), OnPaymentSucceeded(0, false);
    var s0 := GuestIsLate(cfg, price);
    assert LateGuest() + [e1] + [e2] == LateGuest() + [e1, e2];
    RunSnoc(cfg, Start(0, OneRoom(price)), LateGuest(), e1);
    RunSnoc(cfg, Start(0, OneRoom(price)), LateGuest() + [e1], e2);
    LateTwice(cfg, s0, total);
  }

  lemma LateTwice(cfg: Config, s: State, total: nat)
    requires s.late == [] && |s.bookings| == 1 && s.bookings[0].total == total
    requires s.bookings[0].status.BookingExpired? && !s.bookings[0].tx.TxCompleted?
    ensures var s1 := HandlePaymentSucceeded(cfg, s, 0, true).0;
            var s2 := HandlePaymentSucceeded(cfg, s1, 0, false).0;
            && |s1.bookings| == |s2.bookings| == 1
            && s1.bookings[0].tx.TxRefunded? && s2.bookings[0].tx.TxProcessing?
            && LateOf(s2.late, 0) == total
  {
    LateAppended([], LatePayment(0, total, true), 0);
    LateAppended([] + [LatePayment(0, total, true)], LatePayment(0, total, false), 0);
  }

  // ---- Refund notices that repeat ----

  /** From an empty table: the guest pays, cancels with a refund, and the refund notice comes twice.  After the
      first the booking is charged and without rooms, and the row is right; after the second the row counts one
      room less than none as booked. */
  lemma NoticedTwice(cfg: Config, price: nat)
    requires Fits(cfg, Pricing.Total(price, cfg.rates))
    ensures var total := Pricing.Total(price, cfg.rates);
            var cancel, notice := OnCancel(0, 0, Some(total), RefundDone),
                OnRefundSucceeded(0, Notice(Request(), 0, 1));
            var s1 := Run(cfg, Start(0, OneRoom(price)), PayingGuest() + [cancel] + [notice]);
            var s2 := Run(cfg, Start(0, OneRoom(price)), PayingGuest() + [cancel] + [notice] + [notice]);
            && |s1.bookings| == 1 && s1.bookings[0].charged && s1.bookings[0].roomsReturned
            && s1.rows == Counters(price, 0, 0) && s2.rows == Counters(price, -1, 0)
  {
    var total, s0 := Pricing.Total(price, cfg.rates), Start(0, OneRoom(price));
    var cancel, notice := OnCancel(0, 0, Some(total), RefundDone), OnRefundSucceeded(0, Notice(Request(), 0, 1));
    var paid := PaidGuest(cfg, price);
    RunSnoc(cfg, s0, PayingGuest(), cancel);
    RunSnoc(cfg, s0, PayingGuest() + [cancel], notice);
    RunSnoc(cfg, s0, PayingGuest() + [cancel] + [notice], notice);
    NoticesAfterCancel(cfg, paid, price, total);
  }

  lemma NoticesAfterCancel(cfg: Config, s: State, price: nat, total: int)
    requires |s.bookings| == 1 && s.bookings[0].charged && s.bookings[0].buyer == 0 && s.bookings[0].status.Confirmed?
    requires s.rows == Counters(price, 1, 0)
    ensures var cancelled := CancelBooking(cfg, s, 0, 0, Some(total), RefundDone).0;
            var s1 := HandleRefundSucceeded(cancelled, 0, Notice(Request(), 0, 1)).0;
            var s2 := HandleRefundSucceeded(s1, 0, Notice(Request(), 0, 1)).0;
            && |s1.bookings| == 1 && s1.bookings[0].charged && s1.bookings[0].roomsReturned
            && s1.rows == Counters(price, 0, 0) && s2.rows == Counters(price, -1, 0)
  {
    var cancelled := CancelBooking(cfg, s, 0, 0, Some(total), RefundDone).0;
    NoticeTakesRoom(cancelled, price, 1);
    NoticeTakesRoom(HandleRefundSucceeded(cancelled, 0, Notice(Request(), 0, 1)).0, price, 0);
  }

  lemma NoticeTakesRoom(s: State, price: nat, booked: int)
    requires |s.bookings| == 1 && s.bookings[0].charged && s.rows == Counters(price, booked, 0)
    ensures var t := HandleRefundSucceeded(s, 0, Notice(Request(), 0, 1)).0;
            |t.bookings| == 1 && t.bookings[0].charged && t.bookings[0].roomsReturned
                && t.rows == Counters(price, booked - 1, 0)
  {
    MoveOne(price, booked, 0, Booked, Down);
  }
}
