/** Expiry scans against payment webhooks: a booking ends up paid with its rooms, or expired without a posting. */
module ReservationPayments {
  import opened Common
  import opened Inventory
  import opened Money
  import opened Reservations
  import ReservationLaws
  import Ledger

  /** Failure notices, cancellations and refund notices overwrite a booking's status; these are the others. */
  predicate Undisturbed(e: Event, i: nat) {
    match e
    case OnPaymentFailed(k) => k != i
    case OnCancel(k, _, _, _) => k != i
    case OnRefundSucceeded(k, _) => k != i
    case _ => true
  }

  predicate PaidStatus(status: BookingStatus) {
    status.Confirmed? || status.CheckedIn? || status.StayCompleted?
  }

  function PaymentPosting(cfg: Config, b: Booking): seq<Ledger.Line> {
    Ledger.Kept(Ledger.PaymentLines(b.total, b.hotel, cfg.feeRate))
  }

  /** The three situations an undisturbed booking can be in. */
  ghost predicate Waiting(s: State, i: nat)
    requires i < |s.bookings|
  {
    var b := s.bookings[i];
    b.status.PendingPayment? && !b.roomsReturned && b.tx.TxPending?
        && Ledger.EntriesOf(s.books, Ledger.PaymentSucceeded(i)) == []
  }

  ghost predicate PaidWithRooms(cfg: Config, s: State, i: nat)
    requires i < |s.bookings|
  {
    var b := s.bookings[i];
    && PaidStatus(b.status) && !b.roomsReturned && b.tx.TxCompleted?
    && Ledger.EntriesOf(s.books, Ledger.PaymentSucceeded(i)) == PaymentPosting(cfg, b) != []
  }

  ghost predicate ExpiredUnposted(s: State, i: nat)
    requires i < |s.bookings|
  {
    var b := s.bookings[i];
    && b.status.BookingExpired? && b.roomsReturned && (b.tx.TxCancelled? || b.tx.TxRefunded? || b.tx.TxProcessing?)
    && Ledger.EntriesOf(s.books, Ledger.PaymentSucceeded(i)) == []
  }

  ghost predicate Settled(cfg: Config, s: State, i: nat)
    requires i < |s.bookings|
  {
    Waiting(s, i) || PaidWithRooms(cfg, s, i) || ExpiredUnposted(s, i)
  }

  /** No payment is posted for a booking that does not exist yet. */
  ghost predicate NoEarlyPosting(s: State) {
    forall i: nat | |s.bookings| <= i :: Ledger.EntriesOf(s.books, Ledger.PaymentSucceeded(i)) == []
  }

  lemma PostTouchesOneGroup(books: Ledger.Books, key: Ledger.GroupKey, lines: seq<Ledger.Line>, other: Ledger.GroupKey)
    requires other != key
    ensures Ledger.EntriesOf(Ledger.Apply(books, key, lines), other) == Ledger.EntriesOf(books, other)
  {
    Ledger.EntriesOfAppended(books, key, Ledger.Kept(lines), other);
  }

  /** The one group an event may post: a payment's own, or the next refund's. */
  function GroupOf(s: State, e: Event): Ledger.GroupKey {
    if e.OnPaymentSucceeded? then Ledger.PaymentSucceeded(e.paid) else Ledger.RefundSucceeded(|s.refunds|)
  }

  ghost predicate Posts(before: Ledger.Books, after: Ledger.Books, key: Ledger.GroupKey) {
    after == before || exists lines :: after == Ledger.Apply(before, key, lines)
  }

  /** Events other than these two leave the ledger alone. */
  lemma LedgerUntouched(cfg: Config, s: State, e: Event)
    requires !e.OnPaymentSucceeded? && !e.OnCancel?
    ensures Step(cfg, s, e).books == s.books
  {
  }

  lemma CancelPosts(cfg: Config, s: State, i: nat, user: nat, cents: Option<int>, provider: ProviderRefund)
    ensures Posts(s.books, CancelBooking(cfg, s, i, user, cents, provider).0.books, Ledger.RefundSucceeded(|s.refunds|))
  {
  }

  lemma WebhookPosts(cfg: Config, s: State, i: nat, refunded: bool)
    ensures Posts(s.books, HandlePaymentSucceeded(cfg, s, i, refunded).0.books, Ledger.PaymentSucceeded(i))
  {
    var t := HandlePaymentSucceeded(cfg, s, i, refunded).0;
    if t.books != s.books {
      var b := s.bookings[i];
      assert t.books == Ledger.Apply(s.books, Ledger.PaymentSucceeded(i),
                                     Ledger.PaymentLines(b.total, b.hotel, cfg.feeRate));
    }
  }

  lemma StepPosts(cfg: Config, s: State, e: Event)
    ensures Posts(s.books, Step(cfg, s, e).books, GroupOf(s, e))
  {
    match e
    case OnPaymentSucceeded(i, refunded) => WebhookPosts(cfg, s, i, refunded);
    case OnCancel(i, user, cents, provider) => CancelPosts(cfg, s, i, user, cents, provider);
    case _ => LedgerUntouched(cfg, s, e);
  }

  /** Through every run of the engine, disorderly ones included, the books balance group by group, and the
      platform's cash is its revenue plus what it owes all hotels. */
  lemma {:induction false} BooksStayBalanced(cfg: Config, now: int, rows: Table, events: seq<Event>, bound: nat)
    requires Ledger.HotelsBelow(Run(cfg, Start(now, rows), events).books, bound)
    ensures var books := Run(cfg, Start(now, rows), events).books;
            && Ledger.GroupsBalanced(books)
            && Ledger.Net(books, Ledger.PlatformCash)
               == -Ledger.Net(books, Ledger.PlatformRevenue) + Ledger.OwedToHotels(books, bound)
  {
    RunKeepsBalance(cfg, now, rows, events);
    Ledger.AccountsPartition(Run(cfg, Start(now, rows), events).books, bound);
  }

  lemma {:induction false} RunKeepsBalance(cfg: Config, now: int, rows: Table, events: seq<Event>)
    ensures var books := Run(cfg, Start(now, rows), events).books;
            Ledger.GroupsBalanced(books) && Ledger.Imbalance(books) == 0
  {
    if events != [] {
      var n := |events| - 1;
      var s := Run(cfg, Start(now, rows), events[..n]);
      RunKeepsBalance(cfg, now, rows, events[..n]);
      StepPosts(cfg, s, events[n]);
      var after, key := Step(cfg, s, events[n]).books, GroupOf(s, events[n]);
      if after != s.books {
        var lines :| after == Ledger.Apply(s.books, key, lines);
        Ledger.PostKeepsBalance(s.books, key, lines);
      }
    }
  }

  /** What one event does to the payment group of a booking it is not about. */
  lemma OtherGroupsKept(cfg: Config, s: State, e: Event, i: nat)
    requires e.OnPaymentSucceeded? ==> e.paid != i || i >= |s.bookings|
    ensures var key := Ledger.PaymentSucceeded(i);
            Ledger.EntriesOf(Step(cfg, s, e).books, key) == Ledger.EntriesOf(s.books, key)
  {
    StepPosts(cfg, s, e);
    var after := Step(cfg, s, e).books;
    if after != s.books {
      var lines :| after == Ledger.Apply(s.books, GroupOf(s, e), lines);
      PostTouchesOneGroup(s.books, GroupOf(s, e), lines, Ledger.PaymentSucceeded(i));
    }
  }

  lemma BookingsOnlyGrow(cfg: Config, s: State, e: Event)
    ensures |s.bookings| <= |Step(cfg, s, e).bookings| <= |s.bookings| + 1
  {
    if !e.OnFinishBooking? && !e.OnPaymentIntent? {
      NoNewBooking(cfg, s, e);
    }
  }

  lemma StepKeepsNoEarlyPosting(cfg: Config, s: State, e: Event)
    requires NoEarlyPosting(s)
    ensures NoEarlyPosting(Step(cfg, s, e))
  {
    var t := Step(cfg, s, e);
    BookingsOnlyGrow(cfg, s, e);
    forall i: nat | |t.bookings| <= i ensures Ledger.EntriesOf(t.books, Ledger.PaymentSucceeded(i)) == [] {
      OtherGroupsKept(cfg, s, e, i);
    }
  }

  lemma {:induction false} RunKeepsNoEarlyPosting(cfg: Config, now: int, rows: Table, events: seq<Event>)
    ensures NoEarlyPosting(Run(cfg, Start(now, rows), events))
  {
    if events != [] {
      var n := |events| - 1;
      RunKeepsNoEarlyPosting(cfg, now, rows, events[..n]);
      StepKeepsNoEarlyPosting(cfg, Run(cfg, Start(now, rows), events[..n]), events[n]);
    }
  }

  /** What an undisturbed event, other than a success webhook about it, may do to a booking. */
  ghost predicate QuietChange(s: State, t: State, i: nat)
    requires i < |s.bookings| && i < |t.bookings|
  {
    var a, b := s.bookings[i], t.bookings[i];
    && b.total == a.total && b.hotel == a.hotel
    && (|| b == a
        || (PaidStatus(a.status) && PaidStatus(b.status) && b.tx == a.tx && b.roomsReturned == a.roomsReturned)
        || (BookingDue(a, s.now) && b.status.BookingExpired? && b.roomsReturned
            && b.tx == if a.tx.TxPending? || a.tx.TxProcessing? then TxCancelled else a.tx))
  }

  lemma QuietHoldStep(cfg: Config, s: State, e: Event, i: nat)
    requires i < |s.bookings|
    requires || e.Tick? || e.OnCreateHold? || e.OnReleaseHold? || e.OnExpireHold? || e.OnUpdateRow?
             || e.OnBeginBooking? || e.OnFinishBooking? || e.OnPaymentIntent?
    ensures i < |Step(cfg, s, e).bookings| && Step(cfg, s, e).bookings[i] == s.bookings[i]
  {
  }

  lemma QuietBookingStep(cfg: Config, s: State, e: Event, i: nat)
    requires i < |s.bookings| && (e.OnExpireBooking? || e.OnAdvanceStays?)
    ensures i < |Step(cfg, s, e).bookings| && QuietChange(s, Step(cfg, s, e), i)
  {
  }

  lemma QuietPaymentStep(cfg: Config, s: State, e: Event, i: nat)
    requires i < |s.bookings|
    requires match e
             case OnPaymentSucceeded(k, _) => k != i
             case OnPaymentFailed(k) => k != i
             case OnCancel(k, _, _, _) => k != i
             case OnRefundSucceeded(k, _) => k != i
             case _ => false
    ensures i < |Step(cfg, s, e).bookings| && Step(cfg, s, e).bookings[i] == s.bookings[i]
  {
  }

  lemma QuietStep(cfg: Config, s: State, e: Event, i: nat)
    requires i < |s.bookings| && Undisturbed(e, i) && (e.OnPaymentSucceeded? ==> e.paid != i)
    ensures i < |Step(cfg, s, e).bookings| && QuietChange(s, Step(cfg, s, e), i)
  {
    if e.OnExpireBooking? || e.OnAdvanceStays? {
      QuietBookingStep(cfg, s, e, i);
    } else if e.OnPaymentSucceeded? || e.OnPaymentFailed? || e.OnCancel? || e.OnRefundSucceeded? {
      QuietPaymentStep(cfg, s, e, i);
    } else {
      QuietHoldStep(cfg, s, e, i);
    }
  }

  lemma WebhookKeepsSettled(cfg: Config, s: State, i: nat, refunded: bool)
    requires i < |s.bookings| && Settled(cfg, s, i)
    ensures Settled(cfg, HandlePaymentSucceeded(cfg, s, i, refunded).0, i)
  {
    var b := s.bookings[i];
    if Waiting(s, i) {
      var key, lines := Ledger.PaymentSucceeded(i), Ledger.PaymentLines(b.total, b.hotel, cfg.feeRate);
      if Ledger.Post(s.books, key, lines).Ok? {
        Ledger.PostOnce(s.books, key, lines, lines, key);
      }
    }
  }

  lemma StepKeepsSettled(cfg: Config, s: State, e: Event, i: nat)
    requires i < |s.bookings| && Settled(cfg, s, i) && Undisturbed(e, i)
    ensures i < |Step(cfg, s, e).bookings| && Settled(cfg, Step(cfg, s, e), i)
  {
    if e.OnPaymentSucceeded? && e.paid == i {
      WebhookKeepsSettled(cfg, s, i, e.refunded);
    } else {
      QuietStep(cfg, s, e, i);
      OtherGroupsKept(cfg, s, e, i);
    }
  }

  lemma NewBookingPending(cfg: Config, s: State, e: Event)
    requires |Step(cfg, s, e).bookings| == |s.bookings| + 1
    ensures var b := Step(cfg, s, e).bookings[|s.bookings|];
            b.status.PendingPayment? && !b.roomsReturned && b.tx.TxPending?
  {
    if !e.OnFinishBooking? && !e.OnPaymentIntent? {
      NoNewBooking(cfg, s, e);
    }
  }

  lemma NoNewBooking(cfg: Config, s: State, e: Event)
    requires !e.OnFinishBooking? && !e.OnPaymentIntent?
    ensures |Step(cfg, s, e).bookings| == |s.bookings|
  {
  }

  ghost predicate SettledSoFar(cfg: Config, s: State, i: nat) {
    NoEarlyPosting(s) && (i < |s.bookings| ==> Settled(cfg, s, i))
  }

  lemma StepSettles(cfg: Config, s: State, e: Event, i: nat)
    requires SettledSoFar(cfg, s, i) && Undisturbed(e, i)
    ensures SettledSoFar(cfg, Step(cfg, s, e), i)
  {
    StepKeepsNoEarlyPosting(cfg, s, e);
    if i < |s.bookings| {
      StepKeepsSettled(cfg, s, e, i);
    } else {
      LaterBookingSettled(cfg, s, e, i);
    }
  }

  /** A booking that comes to be starts out waiting. */
  lemma LaterBookingSettled(cfg: Config, s: State, e: Event, i: nat)
    requires NoEarlyPosting(s) && |s.bookings| <= i
    ensures i < |Step(cfg, s, e).bookings| ==> Settled(cfg, Step(cfg, s, e), i)
  {
    match e
    case OnFinishBooking(id) => FinishedWaits(cfg, s, id, i);
    case OnPaymentIntent(payer, accepts) => IntentWaits(cfg, s, payer, accepts, i);
    case _ => NoNewBooking(cfg, s, e);
  }

  lemma FinishedWaits(cfg: Config, s: State, id: KeyId, i: nat)
    requires NoEarlyPosting(s) && |s.bookings| <= i
    ensures var t := FinishBooking(cfg, s, id).0; i < |t.bookings| ==> Waiting(t, i)
  {
  }

  lemma IntentWaits(cfg: Config, s: State, payer: nat, accepts: bool, i: nat)
    requires NoEarlyPosting(s) && |s.bookings| <= i
    ensures var t := CreatePaymentIntent(s, payer, accepts).0; i < |t.bookings| ==> Waiting(t, i)
  {
  }

  lemma {:induction false} RunSettles(cfg: Config, now: int, rows: Table, events: seq<Event>, i: nat)
    requires forall k | 0 <= k < |events| :: Undisturbed(events[k], i)
    ensures SettledSoFar(cfg, Run(cfg, Start(now, rows), events), i)
  {
    if events != [] {
      var n := |events| - 1;
      RunSettles(cfg, now, rows, events[..n], i);
      StepSettles(cfg, Run(cfg, Start(now, rows), events[..n]), events[n], i);
    }
  }

  /** Any number and order of expiry scans and repeated success webhooks, among any other events that do not
      fail, cancel or refund this booking: it is still waiting, or it is paid, keeps its rooms and has exactly
      the one posting of its payment, or it has expired, its rooms were given back once and nothing was posted. */
  lemma PaidOrExpired(cfg: Config, now: int, rows: Table, events: seq<Event>, i: nat)
    requires OrderlyRun(cfg, Start(now, rows), events)
    requires forall k | 0 <= k < |events| :: Undisturbed(events[k], i)
    ensures var s := Run(cfg, Start(now, rows), events);
            i < |s.bookings| ==>
              var given := multiset(s.log)[BookingReturn(i)];
              || (Waiting(s, i) && given == 0)
              || (PaidWithRooms(cfg, s, i) && given == 0)
              || (ExpiredUnposted(s, i) && given == 1)
  {
    RunSettles(cfg, now, rows, events, i);
    if i < |Run(cfg, Start(now, rows), events).bookings| {
      ReservationLaws.EveryReturnHappensOnce(cfg, now, rows, events, i);
    }
  }

  /** The payment is posted already, or its fee split balances. */
  predicate Postable(cfg: Config, s: State, i: nat)
    requires i < |s.bookings|
  {
    var b := s.bookings[i];
    Ledger.EntriesOf(s.books, Ledger.PaymentSucceeded(i)) != []
        || (0 < b.total && Share(b.total, cfg.feeRate) <= b.total)
  }

  lemma PostableExactly(cfg: Config, s: State, i: nat)
    requires i < |s.bookings|
    ensures var b := s.bookings[i];
            var lines := Ledger.PaymentLines(b.total, b.hotel, cfg.feeRate);
            Ledger.Post(s.books, Ledger.PaymentSucceeded(i), lines).Ok? <==> Postable(cfg, s, i)
  {
    Ledger.PaymentAcceptedExactly(s.bookings[i].total, s.bookings[i].hotel, cfg.feeRate);
  }

  /** Exactly when a success webhook confirms a booking whose rooms are gone: the transaction is no longer
      marked completed, the booking is not marked expired, and the payment is posted already or has a positive
      amount that covers its fee. */
  lemma WebhookConfirmsWithoutRooms(cfg: Config, s: State, i: nat, refunded: bool)
    requires i < |s.bookings| && s.bookings[i].roomsReturned && !s.bookings[i].status.Confirmed?
    ensures var b, t := s.bookings[i], HandlePaymentSucceeded(cfg, s, i, refunded).0;
            (t.bookings[i].status.Confirmed? && t.bookings[i].roomsReturned)
            <==> && !b.tx.TxCompleted? && !b.status.BookingExpired?
                 && (Ledger.EntriesOf(s.books, Ledger.PaymentSucceeded(i)) != []
                     || (0 < b.total && Share(b.total, cfg.feeRate) <= b.total))
  {
    PostableExactly(cfg, s, i);
  }

  /** So the exclusion does not extend to refunded bookings: from any paid booking, cancelling with a refund,
      the refund notice, and a repeated success webhook end with it confirmed and its rooms given back. */
  lemma ReplayAfterRefundConfirmsWithoutRooms(cfg: Config, s: State, i: nat)
    requires i < |s.bookings| && PaidWithRooms(cfg, s, i) && s.bookings[i].status.Confirmed?
    requires s.bookings[i].charged && s.bookings[i].total > 0
    requires s.bookings[i].rooms != [] && s.bookings[i].checkIn < s.bookings[i].checkOut
    ensures var b := s.bookings[i];
            var cancelled := Step(cfg, s, OnCancel(i, b.buyer, Some(b.total), RefundDone));
            var noticed := Step(cfg, cancelled, OnRefundSucceeded(i, Notice(b.rooms, b.checkIn, b.checkOut)));
            var t := Step(cfg, noticed, OnPaymentSucceeded(i, false));
            t.bookings[i].status.Confirmed? && t.bookings[i].roomsReturned
  {
    var b := s.bookings[i];
    var s1 := Step(cfg, s, OnCancel(i, b.buyer, Some(b.total), RefundDone));
    OtherGroupsKept(cfg, s, OnCancel(i, b.buyer, Some(b.total), RefundDone), i);
    var s2 := Step(cfg, s1, OnRefundSucceeded(i, Notice(b.rooms, b.checkIn, b.checkOut)));
    assert s2.bookings[i].tx.TxRefunded? && s2.bookings[i].roomsReturned && s2.books == s1.books;
  }
}
