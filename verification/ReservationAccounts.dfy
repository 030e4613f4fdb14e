/** Every account of the ledger, explained by the bookings that were paid and the refunds that were made. */
module ReservationAccounts {
  import opened Common
  import opened Money
  import Inventory
  import opened Reservations
  import ReservationPayments
  import Ledger

  // ---- What a booking keeps ----

  /** Whose it is, from which hold, for what and for how much, and its deadline. */
  predicate SameBooking(a: Booking, b: Booking) {
    b == a.(status := b.status, cancelledAt := b.cancelledAt, tx := b.tx,
            charged := b.charged, roomsReturned := b.roomsReturned)
  }

  /** These and the charge stay; a transaction is charged and marked completed by a success webhook only. */
  ghost predicate TermsKept(s: State, t: State, e: Event, i: nat)
    requires i < |s.bookings|
  {
    && i < |t.bookings| && SameBooking(s.bookings[i], t.bookings[i])
    && (s.bookings[i].charged ==> t.bookings[i].charged)
    && (t.bookings[i].charged ==> s.bookings[i].charged || (e.OnPaymentSucceeded? && e.paid == i))
    && (t.bookings[i].tx.TxCompleted? ==> s.bookings[i].tx.TxCompleted? || (e.OnPaymentSucceeded? && e.paid == i))
  }

  lemma HoldEventKeepsTerms(cfg: Config, s: State, e: Event, i: nat)
    requires i < |s.bookings|
    requires || e.Tick? || e.OnCreateHold? || e.OnReleaseHold? || e.OnExpireHold? || e.OnUpdateRow?
             || e.OnBeginBooking? || e.OnFinishBooking? || e.OnPaymentIntent?
    ensures TermsKept(s, Step(cfg, s, e), e, i)
  {
    ReservationPayments.QuietHoldStep(cfg, s, e, i);
  }

  lemma ExpiryKeepsTerms(cfg: Config, s: State, e: Event, i: nat)
    requires i < |s.bookings| && e.OnExpireBooking?
    ensures TermsKept(s, Step(cfg, s, e), e, i)
  {
  }

  lemma NoticeKeepsTerms(cfg: Config, s: State, e: Event, i: nat)
    requires i < |s.bookings| && e.OnRefundSucceeded?
    ensures TermsKept(s, Step(cfg, s, e), e, i)
  {
  }

  lemma AdvanceKeepsTerms(cfg: Config, s: State, e: Event, i: nat)
    requires i < |s.bookings| && e.OnAdvanceStays?
    ensures TermsKept(s, Step(cfg, s, e), e, i)
  {
  }

  lemma RefundKeepsTerms(cfg: Config, s: State, k: nat, cents: int, provider: ProviderRefund, i: nat)
    requires k < |s.bookings| && i < |s.bookings|
    ensures var t := ProcessRefund(cfg, s, k, cents, provider);
            |t.bookings| == |s.bookings| && SameBooking(s.bookings[i], t.bookings[i])
            && t.bookings[i].charged == s.bookings[i].charged
            && (t.bookings[i].tx.TxCompleted? ==> s.bookings[i].tx.TxCompleted?)
  {
  }

  lemma SuccessKeepsTerms(cfg: Config, s: State, k: nat, refunded: bool, i: nat)
    requires i < |s.bookings|
    ensures TermsKept(s, HandlePaymentSucceeded(cfg, s, k, refunded).0, OnPaymentSucceeded(k, refunded), i)
  {
  }

  lemma FailureKeepsTerms(s: State, k: nat, i: nat)
    requires i < |s.bookings|
    ensures TermsKept(s, HandlePaymentFailed(s, k).0, OnPaymentFailed(k), i)
  {
  }

  lemma WebhookKeepsTerms(cfg: Config, s: State, e: Event, i: nat)
    requires i < |s.bookings| && (e.OnPaymentSucceeded? || e.OnPaymentFailed?)
    ensures TermsKept(s, Step(cfg, s, e), e, i)
  {
    match e {
      case OnPaymentSucceeded(k, refunded) => SuccessKeepsTerms(cfg, s, k, refunded, i);
      case OnPaymentFailed(k) => FailureKeepsTerms(s, k, i);
    }
  }

  lemma CancelKeepsTerms(cfg: Config, s: State, e: Event, i: nat)
    requires i < |s.bookings| && e.OnCancel?
    ensures TermsKept(s, Step(cfg, s, e), e, i)
  {
    if e.cancelled < |s.bookings| && e.refundCents.Some? {
      RefundKeepsTerms(cfg, s, e.cancelled, e.refundCents.value, e.provider, i);
    }
  }

  lemma StepKeepsTerms(cfg: Config, s: State, e: Event, i: nat)
    requires i < |s.bookings|
    ensures TermsKept(s, Step(cfg, s, e), e, i)
  {
    if e.OnPaymentSucceeded? || e.OnPaymentFailed? {
      WebhookKeepsTerms(cfg, s, e, i);
    } else if e.OnCancel? {
      CancelKeepsTerms(cfg, s, e, i);
    } else if e.OnExpireBooking? {
      ExpiryKeepsTerms(cfg, s, e, i);
    } else if e.OnRefundSucceeded? {
      NoticeKeepsTerms(cfg, s, e, i);
    } else if e.OnAdvanceStays? {
      AdvanceKeepsTerms(cfg, s, e, i);
    } else {
      HoldEventKeepsTerms(cfg, s, e, i);
    }
  }

  // ---- Refunds and their groups ----

  function RefundPosting(cfg: Config, row: RefundRow): seq<Ledger.Line> {
    Ledger.Kept(Ledger.RefundLines(row.amount, row.hotel, cfg.feeRate))
  }

  /** The amount is positive and covers the fee it reverses. */
  predicate Fits(cfg: Config, amount: int) {
    0 < amount && Share(amount, cfg.feeRate) <= amount
  }

  /** The ledger has a refund group for exactly the rows marked refunded, with exactly their posting. */
  ghost predicate RefundsSound(cfg: Config, s: State) {
    && (forall k | 0 <= k < |s.refunds| && s.refunds[k].state.Refunded? :: Fits(cfg, s.refunds[k].amount))
    && (forall id: nat :: Ledger.EntriesOf(s.books, Ledger.RefundSucceeded(id))
                          == if id < |s.refunds| && s.refunds[id].state.Refunded?
                             then RefundPosting(cfg, s.refunds[id]) else [])
  }

  /** Under a key not used before, an accepted posting changes the books. */
  lemma FreshPosts(books: Ledger.Books, key: Ledger.GroupKey, lines: seq<Ledger.Line>)
    requires Ledger.EntriesOf(books, key) == []
    ensures Ledger.Post(books, key, lines).Ok? <==> Ledger.Apply(books, key, lines) != books
  {
    if Ledger.Post(books, key, lines).Ok? {
      Ledger.PostOnce(books, key, lines, lines, key);
    }
  }

  /** What processRefund adds to the table of refunds and to the books. */
  ghost predicate RowAdded(cfg: Config, s: State, t: State) {
    && |t.refunds| == |s.refunds| + 1 && t.refunds[..|s.refunds|] == s.refunds
    && var row := t.refunds[|s.refunds|];
    if row.state.Refunded?
    then Fits(cfg, row.amount)
         && Ledger.Post(s.books, Ledger.RefundSucceeded(|s.refunds|),
                        Ledger.RefundLines(row.amount, row.hotel, cfg.feeRate)) == Ok(t.books)
    else t.books == s.books
  }

  /** A row marked refunded is one whose posting the ledger accepted. */
  lemma RefundAddsRow(cfg: Config, s: State, i: nat, cents: int, provider: ProviderRefund)
    requires i < |s.bookings| && RefundsSound(cfg, s)
    ensures var t := ProcessRefund(cfg, s, i, cents, provider);
            if s.bookings[i].charged then RowAdded(cfg, s, t) else t == s
  {
    var b := s.bookings[i];
    var amount := if cents <= b.total then cents else b.total;
    Ledger.RefundAcceptedExactly(amount, b.hotel, cfg.feeRate);
    FreshPosts(s.books, Ledger.RefundSucceeded(|s.refunds|), Ledger.RefundLines(amount, b.hotel, cfg.feeRate));
  }

  lemma RowKeepsRefundsSound(cfg: Config, s: State, t: State)
    requires RefundsSound(cfg, s) && RowAdded(cfg, s, t)
    ensures RefundsSound(cfg, t)
  {
    var n := |s.refunds|;
    var row := t.refunds[n];
    forall k | 0 <= k < n ensures t.refunds[k] == s.refunds[k] {
      assert t.refunds[..n][k] == t.refunds[k];
    }
    if row.state.Refunded? {
      var key, lines := Ledger.RefundSucceeded(n), Ledger.RefundLines(row.amount, row.hotel, cfg.feeRate);
      Ledger.PostOnce(s.books, key, lines, lines, key);
      forall id: nat | id != n
        ensures Ledger.EntriesOf(t.books, Ledger.RefundSucceeded(id))
                == Ledger.EntriesOf(s.books, Ledger.RefundSucceeded(id))
      {
        ReservationPayments.PostTouchesOneGroup(s.books, key, lines, Ledger.RefundSucceeded(id));
      }
    }
  }

  // ---- Accounts ----

  /** What the payments posted for bookings put on an account, debits positive. */
  function PaymentsOn(cfg: Config, account: Ledger.Account, books: Ledger.Books, bookings: seq<Booking>): int {
    if bookings == [] then 0
    else
      var n := |bookings| - 1;
      var b := bookings[n];
      PaymentsOn(cfg, account, books, bookings[..n])
      + if Ledger.EntriesOf(books, Ledger.PaymentSucceeded(n)) != []
           then Ledger.PaymentEffect(b.total, b.hotel, cfg.feeRate, account) else 0
  }

  /** What the rows marked refunded take off it. */
  function RefundsOn(cfg: Config, account: Ledger.Account, refunds: seq<RefundRow>): int {
    if refunds == [] then 0
    else
      var last := refunds[|refunds| - 1];
      RefundsOn(cfg, account, refunds[..|refunds| - 1])
      + if last.state.Refunded? then Ledger.PaymentEffect(last.amount, last.hotel, cfg.feeRate, account) else 0
  }

  /** The balance is the payments less the refunds, up to `other` from elsewhere. */
  ghost predicate Explained(cfg: Config, s: State, account: Ledger.Account, other: int) {
    && ReservationPayments.NoEarlyPosting(s) && RefundsSound(cfg, s)
    && Ledger.Net(s.books, account)
       == PaymentsOn(cfg, account, s.books, s.bookings) - RefundsOn(cfg, account, s.refunds) + other
  }

  ghost predicate SameCharges(a: seq<Booking>, b: seq<Booking>) {
    |a| == |b| && forall k | 0 <= k < |a| :: a[k].total == b[k].total && a[k].hotel == b[k].hotel
  }

  ghost predicate SamePayments(before: Ledger.Books, after: Ledger.Books, n: nat) {
    forall k | 0 <= k < n :: Ledger.EntriesOf(after, Ledger.PaymentSucceeded(k))
        == Ledger.EntriesOf(before, Ledger.PaymentSucceeded(k))
  }

  lemma {:induction false} PaymentsSame(cfg: Config, account: Ledger.Account, before: Ledger.Books, after: Ledger.Books,
                                        a: seq<Booking>, b: seq<Booking>)
    requires SameCharges(a, b) && SamePayments(before, after, |a|)
    ensures PaymentsOn(cfg, account, after, b) == PaymentsOn(cfg, account, before, a)
  {
    if a != [] {
      PaymentsSame(cfg, account, before, after, a[..|a| - 1], b[..|b| - 1]);
    }
  }

  lemma {:induction false} PaymentAdded(cfg: Config, account: Ledger.Account, before: Ledger.Books, after: Ledger.Books,
                                        a: seq<Booking>, b: seq<Booking>, i: nat)
    requires SameCharges(a, b) && i < |a|
    requires Ledger.EntriesOf(before, Ledger.PaymentSucceeded(i))
             == [] != Ledger.EntriesOf(after, Ledger.PaymentSucceeded(i))
    requires forall k | 0 <= k < |a| && k != i ::
               Ledger.EntriesOf(after, Ledger.PaymentSucceeded(k))
                   == Ledger.EntriesOf(before, Ledger.PaymentSucceeded(k))
    ensures PaymentsOn(cfg, account, after, b)
         == PaymentsOn(cfg, account, before, a) + Ledger.PaymentEffect(a[i].total, a[i].hotel, cfg.feeRate, account)
  {
    var n := |a| - 1;
    if i == n {
      PaymentsSame(cfg, account, before, after, a[..n], b[..n]);
    } else {
      PaymentAdded(cfg, account, before, after, a[..n], b[..n], i);
    }
  }

  /** What a posting that changes the books does to groups and to an account. */
  lemma PostedOnce(before: Ledger.Books, after: Ledger.Books,
                   key: Ledger.GroupKey, lines: seq<Ledger.Line>, account: Ledger.Account)
    requires after == Ledger.Apply(before, key, lines) != before
    ensures Ledger.EntriesOf(before, key) == [] != Ledger.EntriesOf(after, key) && Ledger.Balanced(Ledger.Kept(lines))
    ensures forall other | other != key :: Ledger.EntriesOf(after, other) == Ledger.EntriesOf(before, other)
    ensures Ledger.Net(after, account) == Ledger.Net(before, account) + Ledger.NetOfLines(Ledger.Kept(lines), account)
  {
    Ledger.PostOnce(before, key, lines, lines, key);
    Ledger.NetAppended(before, key, Ledger.Kept(lines), account);
    forall other | other != key ensures Ledger.EntriesOf(after, other) == Ledger.EntriesOf(before, other) {
      ReservationPayments.PostTouchesOneGroup(before, key, lines, other);
    }
  }

  /** A payment posting adds its effect. */
  lemma PaymentExplained(cfg: Config, s: State, t: State, i: nat, account: Ledger.Account, other: int)
    requires Explained(cfg, s, account, other) && i < |s.bookings|
             && t.refunds == s.refunds && SameCharges(s.bookings, t.bookings)
    requires var b := s.bookings[i];
             t.books == Ledger.Apply(s.books, Ledger.PaymentSucceeded(i),
                                     Ledger.PaymentLines(b.total, b.hotel, cfg.feeRate)) != s.books
    ensures Explained(cfg, t, account, other)
  {
    var b := s.bookings[i];
    PostedOnce(s.books, t.books, Ledger.PaymentSucceeded(i),
               Ledger.PaymentLines(b.total, b.hotel, cfg.feeRate), account);
    Ledger.PaymentAcceptedExactly(b.total, b.hotel, cfg.feeRate);
    Ledger.PaymentNet(b.total, b.hotel, cfg.feeRate, account);
    PaymentAdded(cfg, account, s.books, t.books, s.bookings, t.bookings, i);
  }

  /** What a new row does to an account and to the payment groups. */
  lemma RowPosted(cfg: Config, s: State, t: State, account: Ledger.Account)
    requires RefundsSound(cfg, s) && RowAdded(cfg, s, t)
    ensures Ledger.Net(t.books, account) + RefundsOn(cfg, account, t.refunds)
            == Ledger.Net(s.books, account) + RefundsOn(cfg, account, s.refunds)
    ensures forall k: nat ::
              Ledger.EntriesOf(t.books, Ledger.PaymentSucceeded(k))
              == Ledger.EntriesOf(s.books, Ledger.PaymentSucceeded(k))
  {
    var row := t.refunds[|s.refunds|];
    if row.state.Refunded? {
      var key, lines := Ledger.RefundSucceeded(|s.refunds|), Ledger.RefundLines(row.amount, row.hotel, cfg.feeRate);
      Ledger.RefundAcceptedExactly(row.amount, row.hotel, cfg.feeRate);
      FreshPosts(s.books, key, lines);
      PostedOnce(s.books, t.books, key, lines, account);
      Ledger.RefundNet(row.amount, row.hotel, cfg.feeRate, account);
    }
  }

  /** A new row of the table of refunds takes its effect off. */
  lemma RowExplained(cfg: Config, s: State, t: State, account: Ledger.Account, other: int)
    requires Explained(cfg, s, account, other) && RowAdded(cfg, s, t) && SameCharges(s.bookings, t.bookings)
    ensures Explained(cfg, t, account, other)
  {
    RowKeepsRefundsSound(cfg, s, t);
    RowPosted(cfg, s, t, account);
    PaymentsSame(cfg, account, s.books, t.books, s.bookings, t.bookings);
  }

  /** Nothing posted, no row added; a booking may be new. */
  lemma UntouchedExplained(cfg: Config, s: State, t: State, account: Ledger.Account, other: int)
    requires Explained(cfg, s, account, other) && t.books == s.books && t.refunds == s.refunds
    requires |s.bookings| <= |t.bookings| <= |s.bookings| + 1 && SameCharges(s.bookings, t.bookings[..|s.bookings|])
    ensures Explained(cfg, t, account, other)
  {
    PaymentsSame(cfg, account, s.books, t.books, s.bookings, t.bookings[..|s.bookings|]);
    assert |t.bookings| == |s.bookings| ==> t.bookings[..|s.bookings|] == t.bookings;
  }

  lemma WebhookExplained(cfg: Config, s: State, i: nat, refunded: bool, account: Ledger.Account, other: int)
    requires Explained(cfg, s, account, other)
    ensures Explained(cfg, HandlePaymentSucceeded(cfg, s, i, refunded).0, account, other)
  {
    var t := HandlePaymentSucceeded(cfg, s, i, refunded).0;
    if t.books == s.books {
      RelabelledExplained(cfg, s, t, account, other);
    } else {
      PaymentExplained(cfg, s, t, i, account, other);
    }
  }

  function MarkCancelled(s: State, i: nat): State
    requires i < |s.bookings|
  {
    s.(bookings := s.bookings[i := s.bookings[i].(status := Cancelled)])
  }

  lemma MarkedExplained(cfg: Config, s: State, i: nat, account: Ledger.Account, other: int)
    requires Explained(cfg, s, account, other) && i < |s.bookings|
    ensures Explained(cfg, MarkCancelled(s, i), account, other)
  {
    RelabelledExplained(cfg, s, MarkCancelled(s, i), account, other);
  }

  /** What an accepted cancellation does: a refund, if one is asked for, and the mark. */
  lemma CancelParts(cfg: Config, s: State, i: nat, user: nat, cents: Option<int>, provider: ProviderRefund)
    ensures var (t, reply) := CancelBooking(cfg, s, i, user, cents, provider);
            if !reply.Accepted? then t == s
            else
              && i < |s.bookings|
              && var mid := if cents.Some? && cents.value > 0 then ProcessRefund(cfg, s, i, cents.value, provider)
                            else s;
                 |mid.bookings| == |s.bookings| && t == MarkCancelled(mid, i)
  {
  }

  lemma CancelExplained(cfg: Config, s: State, i: nat, user: nat, cents: Option<int>, provider: ProviderRefund,
                        account: Ledger.Account, other: int)
    requires Explained(cfg, s, account, other)
    ensures Explained(cfg, CancelBooking(cfg, s, i, user, cents, provider).0, account, other)
  {
    CancelParts(cfg, s, i, user, cents, provider);
    if CancelBooking(cfg, s, i, user, cents, provider).1.Accepted? {
      if cents.Some? && cents.value > 0 {
        RefundExplained(cfg, s, i, cents.value, provider, account, other);
        MarkedExplained(cfg, ProcessRefund(cfg, s, i, cents.value, provider), i, account, other);
      } else {
        MarkedExplained(cfg, s, i, account, other);
      }
    }
  }

  lemma RefundExplained(cfg: Config, s: State, i: nat, cents: int, provider: ProviderRefund,
                        account: Ledger.Account, other: int)
    requires Explained(cfg, s, account, other) && i < |s.bookings|
    ensures Explained(cfg, ProcessRefund(cfg, s, i, cents, provider), account, other)
  {
    var mid := ProcessRefund(cfg, s, i, cents, provider);
    RefundAddsRow(cfg, s, i, cents, provider);
    if s.bookings[i].charged {
      RefundSameCharges(cfg, s, i, cents, provider);
      RowExplained(cfg, s, mid, account, other);
    }
  }

  lemma RefundSameCharges(cfg: Config, s: State, i: nat, cents: int, provider: ProviderRefund)
    requires i < |s.bookings|
    ensures SameCharges(s.bookings, ProcessRefund(cfg, s, i, cents, provider).bookings)
  {
  }

  lemma RelabelledExplained(cfg: Config, s: State, t: State, account: Ledger.Account, other: int)
    requires Explained(cfg, s, account, other) && t.books == s.books
             && t.refunds == s.refunds && SameCharges(s.bookings, t.bookings)
    ensures Explained(cfg, t, account, other)
  {
    assert t.bookings[..|s.bookings|] == t.bookings;
    UntouchedExplained(cfg, s, t, account, other);
  }

  lemma OnlyCancelRefunds(cfg: Config, s: State, e: Event)
    requires !e.OnCancel?
    ensures Step(cfg, s, e).refunds == s.refunds
  {
  }

  lemma ChargesKept(cfg: Config, s: State, e: Event)
    ensures var t := Step(cfg, s, e);
            |s.bookings| <= |t.bookings| <= |s.bookings| + 1 && SameCharges(s.bookings, t.bookings[..|s.bookings|])
  {
    ReservationPayments.BookingsOnlyGrow(cfg, s, e);
    forall k | 0 <= k < |s.bookings|
      ensures Step(cfg, s, e).bookings[k].total == s.bookings[k].total
              && Step(cfg, s, e).bookings[k].hotel == s.bookings[k].hotel
    {
      StepKeepsTerms(cfg, s, e, k);
    }
  }

  lemma StepExplained(cfg: Config, s: State, e: Event, account: Ledger.Account, other: int)
    requires Explained(cfg, s, account, other)
    ensures Explained(cfg, Step(cfg, s, e), account, other)
  {
    match e
    case OnPaymentSucceeded(i, refunded) => WebhookExplained(cfg, s, i, refunded, account, other);
    case OnCancel(i, user, cents, provider) => CancelExplained(cfg, s, i, user, cents, provider, account, other);
    case _ =>
      ReservationPayments.LedgerUntouched(cfg, s, e);
      OnlyCancelRefunds(cfg, s, e);
      ChargesKept(cfg, s, e);
      UntouchedExplained(cfg, s, Step(cfg, s, e), account, other);
  }

  /** Through every run of the engine each account's balance is the effect of the posted payments of bookings
      less that of the refunds the table marks as refunded: cash, the platform's revenue and what each hotel is
      owed move by nothing else. */
  lemma {:induction false} EveryAccountIsExplained(cfg: Config, now: int,
                                                   rows: Inventory.Table, events: seq<Event>, account: Ledger.Account)
    ensures Explained(cfg, Run(cfg, Start(now, rows), events), account, 0)
  {
    if events != [] {
      var n := |events| - 1;
      EveryAccountIsExplained(cfg, now, rows, events[..n], account);
      StepExplained(cfg, Run(cfg, Start(now, rows), events[..n]), events[n], account, 0);
    }
  }
}
