/** The status machines of a booking and of its transaction: which event leads where, and what a status implies. */
module ReservationStatuses {
  import opened Common
  import opened Inventory
  import opened Money
  import opened Reservations
  import opened ReservationAccounts
  import ReservationPayments
  import Ledger

  // ---- Where each event leads ----

  /** A cancellation by the buyer that is not refused. */
  predicate Cancels(s: State, e: Event, i: nat) {
    && e.OnCancel? && e.cancelled == i && i < |s.bookings| && e.byUser == s.bookings[i].buyer
    && !s.bookings[i].status.Cancelled? && !s.bookings[i].status.StayCompleted?
  }

  /** A refund notice for a charged booking, with rooms and dates that can be released or without rooms. */
  predicate Notifies(s: State, e: Event, i: nat) {
    && e.OnRefundSucceeded? && e.refundedBooking == i && i < |s.bookings| && s.bookings[i].charged
    && (e.notice.rooms == [] || e.notice.checkIn < e.notice.checkOut)
  }

  /** A success webhook for a booking that is not expired, whose payment is or can be posted. */
  predicate Confirms(cfg: Config, s: State, e: Event, i: nat) {
    && e.OnPaymentSucceeded? && e.paid == i && i < |s.bookings|
    && !s.bookings[i].tx.TxCompleted? && !s.bookings[i].status.BookingExpired?
    && ReservationPayments.Postable(cfg, s, i)
  }

  predicate Fails(s: State, e: Event, i: nat) {
    e.OnPaymentFailed? && e.failed == i && i < |s.bookings| && !s.bookings[i].tx.TxFailed?
  }

  predicate Expires(s: State, e: Event, i: nat) {
    && e.OnExpireBooking? && e.staleBooking == i && i < |s.bookings|
    && s.bookings[i].status.PendingPayment? && s.bookings[i].expiresAt <= s.now
    && (s.bookings[i].rooms == [] || s.bookings[i].checkIn < s.bookings[i].checkOut)
  }

  /** The events that lead a booking to a status that it does not have. */
  predicate LeadsTo(cfg: Config, s: State, e: Event, i: nat, to: BookingStatus)
    requires i < |s.bookings|
  {
    var b := s.bookings[i];
    match to
    case PendingPayment => false
    case Confirmed => Confirms(cfg, s, e, i)
    case PaymentFailed => Fails(s, e, i)
    case BookingExpired => Expires(s, e, i)
    case CheckedIn =>
      e.OnAdvanceStays? && e.guest == b.buyer && b.status.Confirmed? && b.checkIn <= e.today <= b.checkOut
    case StayCompleted =>
      e.OnAdvanceStays? && e.guest == b.buyer && (b.status.Confirmed? || b.status.CheckedIn?) && b.checkOut < e.today
    case Cancelled => Cancels(s, e, i) || Notifies(s, e, i)
  }

  /** The event names the booking, or advances the stays of a guest. */
  predicate About(e: Event, i: nat) {
    match e
    case OnPaymentSucceeded(k, _) => k == i
    case OnPaymentFailed(k) => k == i
    case OnCancel(k, _, _, _) => k == i
    case OnRefundSucceeded(k, _) => k == i
    case OnExpireBooking(k) => k == i
    case OnAdvanceStays(_, _) => true
    case _ => false
  }

  lemma OtherExpiry(s: State, k: nat, i: nat)
    requires i < |s.bookings| && k != i
    ensures i < |ExpireBooking(s, k).0.bookings| && ExpireBooking(s, k).0.bookings[i] == s.bookings[i]
  {
  }

  lemma OthersUntouched(cfg: Config, s: State, e: Event, i: nat)
    requires i < |s.bookings| && !About(e, i)
    ensures i < |Step(cfg, s, e).bookings| && Step(cfg, s, e).bookings[i] == s.bookings[i]
  {
    match e
    case OnExpireBooking(k) => OtherExpiry(s, k, i);
    case OnPaymentSucceeded(_, _) => ReservationPayments.QuietPaymentStep(cfg, s, e, i);
    case OnPaymentFailed(_) => ReservationPayments.QuietPaymentStep(cfg, s, e, i);
    case OnCancel(_, _, _, _) => ReservationPayments.QuietPaymentStep(cfg, s, e, i);
    case OnRefundSucceeded(_, _) => ReservationPayments.QuietPaymentStep(cfg, s, e, i);
    case _ => ReservationPayments.QuietHoldStep(cfg, s, e, i);
  }

  /** What a booking looks like after an event about it. */
  ghost predicate Moves(cfg: Config, s: State, t: State, e: Event, i: nat)
    requires i < |s.bookings|
  {
    && i < |t.bookings|
    && (forall to | to != s.bookings[i].status :: t.bookings[i].status == to <==> LeadsTo(cfg, s, e, i, to))
    && (forall to | to != s.bookings[i].tx :: t.bookings[i].tx == to <==> TxLeadsTo(cfg, s, e, i, to))
    && t.bookings[i].cancelledAt == (if Expires(s, e, i) then Some(s.now) else s.bookings[i].cancelledAt)
  }

  /** A cancellation that asks for a refund of a charged booking. */
  predicate AsksRefund(s: State, e: Event, i: nat) {
    Cancels(s, e, i) && s.bookings[i].charged && e.refundCents.Some? && e.refundCents.value > 0
  }

  /** A success webhook that finds the booking expired. */
  predicate TooLate(s: State, e: Event, i: nat) {
    && e.OnPaymentSucceeded? && e.paid == i && i < |s.bookings|
    && s.bookings[i].status.BookingExpired? && !s.bookings[i].tx.TxCompleted?
  }

  /** The same for the transaction.  The provider's answer decides between the refund's outcomes, and the amount
      asked for between a full and a partial one. */
  predicate TxLeadsTo(cfg: Config, s: State, e: Event, i: nat, to: TxStatus)
    requires i < |s.bookings|
  {
    var b := s.bookings[i];
    match to
    case TxPending => false
    case TxCompleted => Confirms(cfg, s, e, i)
    case TxFailed => Fails(s, e, i)
    case TxCancelled => Expires(s, e, i) && (b.tx.TxPending? || b.tx.TxProcessing?)
    case TxProcessing =>
      || (TooLate(s, e, i) && !e.refunded)
      || (AsksRefund(s, e, i) && (e.provider.RefundPending? || e.provider.RefundDeclined?))
    case TxRefunded =>
      || (TooLate(s, e, i) && e.refunded)
      || (AsksRefund(s, e, i) && e.provider.RefundDone? && b.total <= e.refundCents.value)
    case TxPartiallyRefunded => AsksRefund(s, e, i) && e.provider.RefundDone? && e.refundCents.value < b.total
  }

  /** What a success webhook makes of a booking. */
  lemma WebhookOutcome(cfg: Config, s: State, i: nat, refunded: bool)
    requires i < |s.bookings|
    ensures var e, b := OnPaymentSucceeded(i, refunded), s.bookings[i];
            var t := HandlePaymentSucceeded(cfg, s, i, refunded).0;
            && i < |t.bookings| && t.bookings[i].cancelledAt == b.cancelledAt
            && t.bookings[i].status == (if Confirms(cfg, s, e, i) then Confirmed else b.status)
            && t.bookings[i].tx == (if Confirms(cfg, s, e, i) then TxCompleted
                                    else if !TooLate(s, e, i) then b.tx
                                    else if refunded then TxRefunded else TxProcessing)
  {
    ReservationPayments.PostableExactly(cfg, s, i);
  }

  lemma WebhookMoves(cfg: Config, s: State, i: nat, refunded: bool)
    requires i < |s.bookings|
    ensures Moves(cfg, s, HandlePaymentSucceeded(cfg, s, i, refunded).0, OnPaymentSucceeded(i, refunded), i)
  {
    WebhookOutcome(cfg, s, i, refunded);
  }

  lemma FailureMoves(cfg: Config, s: State, i: nat)
    requires i < |s.bookings|
    ensures Moves(cfg, s, HandlePaymentFailed(s, i).0, OnPaymentFailed(i), i)
  {
  }

  lemma CancelMoves(cfg: Config, s: State, i: nat, user: nat, cents: Option<int>, provider: ProviderRefund)
    requires i < |s.bookings|
    ensures Moves(cfg, s, CancelBooking(cfg, s, i, user, cents, provider).0, OnCancel(i, user, cents, provider), i)
  {
  }

  lemma NoticeMoves(cfg: Config, s: State, i: nat, notice: Notice)
    requires i < |s.bookings|
    ensures Moves(cfg, s, HandleRefundSucceeded(s, i, notice).0, OnRefundSucceeded(i, notice), i)
  {
  }

  lemma ExpiryMoves(cfg: Config, s: State, i: nat)
    requires i < |s.bookings|
    ensures Moves(cfg, s, ExpireBooking(s, i).0, OnExpireBooking(i), i)
  {
  }

  lemma AdvanceMoves(cfg: Config, s: State, user: nat, today: int, i: nat)
    requires i < |s.bookings|
    ensures Moves(cfg, s, AdvanceStays(s, user, today), OnAdvanceStays(user, today), i)
  {
  }

  lemma UntouchedMoves(cfg: Config, s: State, t: State, e: Event, i: nat)
    requires i < |s.bookings| && !About(e, i) && i < |t.bookings| && t.bookings[i] == s.bookings[i]
    ensures Moves(cfg, s, t, e, i)
  {
  }

  lemma NamedMoves(cfg: Config, s: State, e: Event, i: nat)
    requires i < |s.bookings| && About(e, i)
    ensures Moves(cfg, s, Step(cfg, s, e), e, i)
  {
    match e
    case OnPaymentSucceeded(_, refunded) => WebhookMoves(cfg, s, i, refunded);
    case OnPaymentFailed(_) => FailureMoves(cfg, s, i);
    case OnCancel(_, user, cents, provider) => CancelMoves(cfg, s, i, user, cents, provider);
    case OnRefundSucceeded(_, notice) => NoticeMoves(cfg, s, i, notice);
    case OnExpireBooking(_) => ExpiryMoves(cfg, s, i);
    case OnAdvanceStays(user, today) => AdvanceMoves(cfg, s, user, today, i);
  }

  /** Every event, in every state: a booking, its transaction and the time stamp of its end go to another value
      exactly by the events listed, and whatever event is about another booking leaves all of them alone. */
  lemma StepMovesExactly(cfg: Config, s: State, e: Event, i: nat)
    requires i < |s.bookings|
    ensures Moves(cfg, s, Step(cfg, s, e), e, i)
    ensures !About(e, i) ==> Step(cfg, s, e).bookings[i] == s.bookings[i]
  {
    if About(e, i) {
      NamedMoves(cfg, s, e, i);
    } else {
      OthersUntouched(cfg, s, e, i);
      UntouchedMoves(cfg, s, Step(cfg, s, e), e, i);
    }
  }

  /** Why a cancellation is refused, and that a refusal changes nothing. */
  lemma CancelRefusedExactly(cfg: Config, s: State, i: nat, user: nat, cents: Option<int>, provider: ProviderRefund)
    ensures var (t, reply) := CancelBooking(cfg, s, i, user, cents, provider);
            && (reply == Refused(BookingNotFound) <==> (i < |s.bookings| ==> s.bookings[i].buyer != user))
            && (reply == Refused(AlreadyCancelled)
                <==> i < |s.bookings| && s.bookings[i].buyer == user && s.bookings[i].status.Cancelled?)
            && (reply == Refused(CannotCancelCompleted)
                <==> i < |s.bookings| && s.bookings[i].buyer == user && s.bookings[i].status.StayCompleted?)
            && (reply.Refused? ==> t == s)
            && (reply.Accepted? <==> Cancels(s, OnCancel(i, user, cents, provider), i))
  {
  }

  /** The same for a refund notice: it names no charge, or rooms on an empty range. */
  lemma NoticeRefusedExactly(s: State, i: nat, notice: Notice)
    ensures var (t, reply) := HandleRefundSucceeded(s, i, notice);
            && (reply == Refused(TransactionNotFound) <==> (i < |s.bookings| ==> !s.bookings[i].charged))
            && (reply == Refused(InvalidDateRange)
                <==> && i < |s.bookings| && s.bookings[i].charged
                     && notice.rooms != [] && notice.checkOut <= notice.checkIn)
            && (reply.Refused? ==> t == s)
            && (reply.Accepted? <==> Notifies(s, OnRefundSucceeded(i, notice), i))
  {
  }

  /** And for a success webhook: the booking is unknown, or its payment cannot be posted. */
  lemma WebhookRefusedExactly(cfg: Config, s: State, i: nat, refunded: bool)
    ensures var (t, reply) := HandlePaymentSucceeded(cfg, s, i, refunded);
            && (reply == Refused(BookingNotFound) <==> |s.bookings| <= i)
            && (reply == Refused(NotBalanced)
                <==> && i < |s.bookings| && !s.bookings[i].tx.TxCompleted? && !s.bookings[i].status.BookingExpired?
                     && !ReservationPayments.Postable(cfg, s, i))
            && (reply.Unchanged? <==> i < |s.bookings| && s.bookings[i].tx.TxCompleted?)
            && (!reply.Accepted? ==> t == s)
  {
    if i < |s.bookings| {
      ReservationPayments.PostableExactly(cfg, s, i);
    }
  }

  // ---- A failure webhook ----

  /** A failure webhook marks the booking and its transaction as failed, unless it was recorded before, and
      touches nothing else: no other field, no other booking, no room and no entry. */
  lemma FailureMarksFailed(cfg: Config, s: State, i: nat, k: nat)
    requires i < |s.bookings| && k < |s.bookings|
    ensures var a, t := s.bookings[i], Step(cfg, s, OnPaymentFailed(i));
            && t == s.(bookings := t.bookings) && |t.bookings| == |s.bookings|
            && (k != i ==> t.bookings[k] == s.bookings[k])
            && (a.tx.TxFailed? ==> t.bookings[i] == a)
            && (!a.tx.TxFailed? ==> t.bookings[i].status.PaymentFailed? && t.bookings[i].tx.TxFailed?)
            && t.bookings[i].(status := a.status, tx := a.tx) == a
  {
  }

  // ---- No stay without its payment ----

  /** A booking that says confirmed, checked in or completed has its payment posted. */
  ghost predicate PaidIfConfirmed(s: State, i: nat) {
    i < |s.bookings| && ReservationPayments.PaidStatus(s.bookings[i].status) ==>
      Ledger.EntriesOf(s.books, Ledger.PaymentSucceeded(i)) != []
  }

  lemma ConfirmingPosts(cfg: Config, s: State, i: nat, refunded: bool)
    requires i < |s.bookings| && Confirms(cfg, s, OnPaymentSucceeded(i, refunded), i)
    ensures Ledger.EntriesOf(HandlePaymentSucceeded(cfg, s, i, refunded).0.books, Ledger.PaymentSucceeded(i)) != []
  {
    var b := s.bookings[i];
    var key, lines := Ledger.PaymentSucceeded(i), Ledger.PaymentLines(b.total, b.hotel, cfg.feeRate);
    ReservationPayments.PostableExactly(cfg, s, i);
    if Ledger.EntriesOf(s.books, key) == [] {
      Ledger.PostOnce(s.books, key, lines, lines, key);
    }
  }

  lemma StepKeepsPaidIfConfirmed(cfg: Config, s: State, e: Event, i: nat)
    requires PaidIfConfirmed(s, i)
    ensures PaidIfConfirmed(Step(cfg, s, e), i)
  {
    if i < |s.bookings| {
      OldStaysPaid(cfg, s, e, i);
    } else {
      NewIsNotConfirmed(cfg, s, e, i);
    }
  }

  lemma NewIsNotConfirmed(cfg: Config, s: State, e: Event, i: nat)
    requires |s.bookings| <= i
    ensures var t := Step(cfg, s, e);
            i < |t.bookings| ==> !ReservationPayments.PaidStatus(t.bookings[i].status)
  {
    match e
    case OnFinishBooking(id) => RequestedIsPending(cfg, s, id, i);
    case OnPaymentIntent(payer, accepts) => IntendedIsPending(s, payer, accepts, i);
    case _ => ReservationPayments.NoNewBooking(cfg, s, e);
  }

  lemma RequestedIsPending(cfg: Config, s: State, id: KeyId, i: nat)
    requires |s.bookings| <= i
    ensures var t := FinishBooking(cfg, s, id).0; i < |t.bookings| ==> t.bookings[i].status.PendingPayment?
  {
  }

  lemma IntendedIsPending(s: State, payer: nat, accepts: bool, i: nat)
    requires |s.bookings| <= i
    ensures var t := CreatePaymentIntent(s, payer, accepts).0;
            i < |t.bookings| ==> t.bookings[i].status.PendingPayment?
  {
  }

  lemma OldStaysPaid(cfg: Config, s: State, e: Event, i: nat)
    requires PaidIfConfirmed(s, i) && i < |s.bookings|
    ensures PaidIfConfirmed(Step(cfg, s, e), i)
  {
    if Confirms(cfg, s, e, i) {
      ConfirmingPosts(cfg, s, i, e.refunded);
    } else {
      PaymentGroupStays(cfg, s, e, i);
      NotConfirmed(cfg, s, e, i);
    }
  }

  /** Without a confirming webhook no booking comes to a paid status. */
  lemma NotConfirmed(cfg: Config, s: State, e: Event, i: nat)
    requires i < |s.bookings| && !Confirms(cfg, s, e, i)
    ensures var t := Step(cfg, s, e);
            i < |t.bookings| && (ReservationPayments.PaidStatus(t.bookings[i].status)
                                 ==> ReservationPayments.PaidStatus(s.bookings[i].status))
  {
    StepMovesExactly(cfg, s, e, i);
    var to := Step(cfg, s, e).bookings[i].status;
    assert to != s.bookings[i].status ==> LeadsTo(cfg, s, e, i, to);
  }

  /** A payment once posted stays posted. */
  lemma PaymentGroupStays(cfg: Config, s: State, e: Event, i: nat)
    ensures Ledger.EntriesOf(s.books, Ledger.PaymentSucceeded(i)) != [] ==>
              Ledger.EntriesOf(Step(cfg, s, e).books, Ledger.PaymentSucceeded(i))
              == Ledger.EntriesOf(s.books, Ledger.PaymentSucceeded(i))
  {
    if !(e.OnPaymentSucceeded? && e.paid == i) {
      ReservationPayments.OtherGroupsKept(cfg, s, e, i);
    }
  }

  /** In every run, whatever fails, is cancelled, refunded or repeated in it: no booking is confirmed, checked in
      or completed without its payment in the ledger. */
  lemma {:induction false} ConfirmedIsPaid(cfg: Config, now: int, rows: Table, events: seq<Event>, i: nat)
    ensures var s := Run(cfg, Start(now, rows), events);
            i < |s.bookings| && ReservationPayments.PaidStatus(s.bookings[i].status) ==>
              Ledger.EntriesOf(s.books, Ledger.PaymentSucceeded(i)) != []
  {
    if events != [] {
      var n := |events| - 1;
      ConfirmedIsPaid(cfg, now, rows, events[..n], i);
      StepKeepsPaidIfConfirmed(cfg, Run(cfg, Start(now, rows), events[..n]), events[n], i);
    }
  }

  // ---- Refund rows ----

  /** A cancellation adds a row to the table of refunds exactly if it asks for a refund of a charged booking: for
      that booking and its hotel, of the amount asked for but no more than was charged, and marked refunded
      exactly if the provider has paid and the ledger accepts the amount. */
  lemma RefundRecordedExactly(cfg: Config, s: State, e: Event, i: nat)
    requires RefundsSound(cfg, s) && i < |s.bookings| && e.OnCancel? && e.cancelled == i
    ensures var b, t := s.bookings[i], Step(cfg, s, e);
            && (t.refunds != s.refunds <==> AsksRefund(s, e, i))
            && (AsksRefund(s, e, i) ==>
                  && |t.refunds| == |s.refunds| + 1 && t.refunds[..|s.refunds|] == s.refunds
                  && var row := t.refunds[|s.refunds|];
                  && row.booking == i && row.hotel == b.hotel
                  && row.amount <= e.refundCents.value && row.amount <= b.total
                  && (row.amount == e.refundCents.value || row.amount == b.total)
                  && (row.state.Refunded? <==> e.provider.RefundDone? && Fits(cfg, row.amount))
                  && (row.state.RefundOpen? <==> e.provider.RefundPending?))
  {
    if AsksRefund(s, e, i) {
      RowRecorded(cfg, s, i, e.refundCents.value, e.provider);
    }
  }

  /** The row that processRefund adds. */
  lemma RowRecorded(cfg: Config, s: State, i: nat, cents: int, provider: ProviderRefund)
    requires RefundsSound(cfg, s) && i < |s.bookings| && s.bookings[i].charged
    ensures var b, t := s.bookings[i], ProcessRefund(cfg, s, i, cents, provider);
            && |t.refunds| == |s.refunds| + 1 && t.refunds[..|s.refunds|] == s.refunds
            && var row := t.refunds[|s.refunds|];
            && row.booking == i && row.hotel == b.hotel
            && row.amount == (if cents <= b.total then cents else b.total)
            && (row.state.Refunded? <==> provider.RefundDone? && Fits(cfg, row.amount))
            && (row.state.RefundOpen? <==> provider.RefundPending?)
  {
    var b := s.bookings[i];
    Ledger.RefundAcceptedExactly(if cents <= b.total then cents else b.total, b.hotel, cfg.feeRate);
  }
}
