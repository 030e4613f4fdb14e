/** Runs of the reservation engine and of payouts together, over one ledger. */
module PayoutRuns {
  import opened Common
  import opened Inventory
  import opened Money
  import opened Reservations
  import opened ReservationAccounts
  import ReservationPayments
  import ReservationPayouts
  import ReservationRefunds
  import Scenarios
  import Pricing
  import Ledger
  import Settlement

  datatype Joint = Joint(engine: State, tables: Settlement.Tables)

  /** An event of the engine, an attempt of a payout run at one booking, or the transfer of one payout. */
  datatype JointEvent =
    | OfEngine(e: Event)
    | OnPayout(booking: nat, owner: Option<nat>, cutoff: int, itemSeen: bool, account: bool, feeRate: Rate)
    | OnTransfer(payout: nat, transferred: bool, notified: bool)

  /** The attempt at a booking, if the query finds it. */
  function PaidOutTables(j: Joint, i: nat, owner: Option<nat>, cutoff: int,
                         itemSeen: bool, account: bool, feeRate: Rate): Settlement.Tables
  {
    if i < |j.engine.bookings| && ReservationPayouts.EligibleForPayout(j.engine.bookings[i], cutoff) then
      var row := ReservationPayouts.PayoutRow(j.engine.bookings[i], i, owner, itemSeen, account);
      Settlement.After(j.tables, Settlement.Attempt(j.tables, row, feeRate))
    else j.tables
  }

  function JointStep(cfg: Config, j: Joint, e: JointEvent): Joint {
    match e
    case OfEngine(e') => j.(engine := Step(cfg, j.engine, e'))
    case OnPayout(i, owner, cutoff, itemSeen, account, feeRate) =>
      j.(tables := PaidOutTables(j, i, owner, cutoff, itemSeen, account, feeRate))
    case OnTransfer(p, transferred, notified) =>
      var (payouts, books) := Settlement.TransferStep(j.tables.payouts, j.engine.books, p, transferred, notified);
      Joint(j.engine.(books := books), j.tables.(payouts := payouts))
  }

  function JointRun(cfg: Config, j: Joint, events: seq<JointEvent>): Joint {
    if events == [] then j else JointStep(cfg, JointRun(cfg, j, events[..|events| - 1]), events[|events| - 1])
  }

  function JointStart(now: int, rows: Table): Joint {
    Joint(Start(now, rows), Settlement.Tables([], []))
  }

  // ---- What payouts take ----

  /** What one payout puts on an account, debits positive. */
  function PayoutEffect(p: Settlement.Payout, account: Ledger.Account): int {
    match account
    case PlatformCash => -p.amount
    case PlatformRevenue => 0
    case HotelPayable(h) => if h == p.hotel then p.amount else 0
  }

  /** The payouts whose group is posted, together. */
  function PaidOut(account: Ledger.Account, books: Ledger.Books, payouts: seq<Settlement.Payout>): int {
    if payouts == [] then 0
    else
      var n := |payouts| - 1;
      PaidOut(account, books, payouts[..n])
      + if Ledger.EntriesOf(books, Ledger.PayoutPaid(n)) != [] then PayoutEffect(payouts[n], account) else 0
  }

  /** Payouts are positive, and one that is pending or not there yet has no group. */
  ghost predicate PayoutsSound(j: Joint) {
    && (forall p | 0 <= p < |j.tables.payouts| :: j.tables.payouts[p].amount > 0)
    && (forall p: nat | p < |j.tables.payouts| ==> j.tables.payouts[p].status.Pending? ::
          Ledger.EntriesOf(j.engine.books, Ledger.PayoutPaid(p)) == [])
  }

  /** The balance is the payments, less the refunds, plus the payouts. */
  ghost predicate JointExplained(cfg: Config, j: Joint, account: Ledger.Account) {
    PayoutsSound(j) && Explained(cfg, j.engine, account, PaidOut(account, j.engine.books, j.tables.payouts))
  }

  ghost predicate SamePayouts(a: seq<Settlement.Payout>, b: seq<Settlement.Payout>) {
    |a| == |b| && forall p | 0 <= p < |a| :: a[p].amount == b[p].amount && a[p].hotel == b[p].hotel
  }

  lemma {:induction false} PaidOutSame(account: Ledger.Account, before: Ledger.Books, after: Ledger.Books,
                                       a: seq<Settlement.Payout>, b: seq<Settlement.Payout>)
    requires SamePayouts(a, b)
    requires forall p | 0 <= p < |a| ::
             Ledger.EntriesOf(after, Ledger.PayoutPaid(p)) == Ledger.EntriesOf(before, Ledger.PayoutPaid(p))
    ensures PaidOut(account, after, b) == PaidOut(account, before, a)
  {
    if a != [] {
      PaidOutSame(account, before, after, a[..|a| - 1], b[..|b| - 1]);
    }
  }

  lemma {:induction false} PaidOutAdded(account: Ledger.Account, before: Ledger.Books, after: Ledger.Books,
                                        a: seq<Settlement.Payout>, b: seq<Settlement.Payout>, i: nat)
    requires SamePayouts(a, b) && i < |a|
    requires Ledger.EntriesOf(before, Ledger.PayoutPaid(i)) == [] != Ledger.EntriesOf(after, Ledger.PayoutPaid(i))
    requires forall p | 0 <= p < |a| && p != i ::
               Ledger.EntriesOf(after, Ledger.PayoutPaid(p)) == Ledger.EntriesOf(before, Ledger.PayoutPaid(p))
    ensures PaidOut(account, after, b) == PaidOut(account, before, a) + PayoutEffect(a[i], account)
  {
    var n := |a| - 1;
    if i == n {
      PaidOutSame(account, before, after, a[..n], b[..n]);
    } else {
      PaidOutAdded(account, before, after, a[..n], b[..n], i);
    }
  }

  // ---- Each event ----

  lemma EngineKeepsPayoutGroups(cfg: Config, s: State, e: Event, p: nat)
    ensures Ledger.EntriesOf(Step(cfg, s, e).books, Ledger.PayoutPaid(p))
            == Ledger.EntriesOf(s.books, Ledger.PayoutPaid(p))
  {
    ReservationPayments.StepPosts(cfg, s, e);
    var after := Step(cfg, s, e).books;
    if after != s.books {
      var key := ReservationPayments.GroupOf(s, e);
      var lines :| after == Ledger.Apply(s.books, key, lines);
      ReservationPayments.PostTouchesOneGroup(s.books, key, lines, Ledger.PayoutPaid(p));
    }
  }

  lemma EngineExplained(cfg: Config, j: Joint, e: Event, account: Ledger.Account)
    requires JointExplained(cfg, j, account)
    ensures JointExplained(cfg, j.(engine := Step(cfg, j.engine, e)), account)
  {
    StepExplained(cfg, j.engine, e, account, PaidOut(account, j.engine.books, j.tables.payouts));
    forall p: nat
      ensures Ledger.EntriesOf(Step(cfg, j.engine, e).books, Ledger.PayoutPaid(p))
              == Ledger.EntriesOf(j.engine.books, Ledger.PayoutPaid(p))
    {
      EngineKeepsPayoutGroups(cfg, j.engine, e, p);
    }
    PaidOutSame(account, j.engine.books, Step(cfg, j.engine, e).books, j.tables.payouts, j.tables.payouts);
  }

  lemma PayoutExplained(cfg: Config, j: Joint, row: Settlement.Eligible, feeRate: Rate, account: Ledger.Account)
    requires JointExplained(cfg, j, account)
    ensures JointExplained(cfg, j.(tables := Settlement.After(j.tables, Settlement.Attempt(j.tables, row, feeRate))),
                           account)
  {
    var t := Settlement.After(j.tables, Settlement.Attempt(j.tables, row, feeRate));
    if t != j.tables {
      assert t.payouts[..|j.tables.payouts|] == j.tables.payouts;
    }
  }

  /** A transfer whose money moved posts its group once and adds its effect. */
  lemma TransferExplained(cfg: Config, j: Joint, p: nat, transferred: bool, notified: bool, account: Ledger.Account)
    requires JointExplained(cfg, j, account)
    ensures JointExplained(cfg, JointStep(cfg, j, OnTransfer(p, transferred, notified)), account)
  {
    var t := JointStep(cfg, j, OnTransfer(p, transferred, notified));
    if t.engine.books == j.engine.books {
      PaidOutSame(account, j.engine.books, t.engine.books, j.tables.payouts, t.tables.payouts);
      assert t.engine == j.engine;
    } else {
      PostedTransferExplained(cfg, j, t, p, account);
    }
  }

  lemma PostedTransferExplained(cfg: Config, j: Joint, t: Joint, p: nat, account: Ledger.Account)
    requires JointExplained(cfg, j, account) && p < |j.tables.payouts|
    requires var q := j.tables.payouts[p];
             t.engine == j.engine.(books := t.engine.books)
             && t.engine.books == Ledger.Apply(j.engine.books, Ledger.PayoutPaid(p),
                                               Ledger.PayoutLines(q.amount, q.hotel)) != j.engine.books
    requires SamePayouts(j.tables.payouts, t.tables.payouts) && !t.tables.payouts[p].status.Pending?
    requires forall k | 0 <= k < |j.tables.payouts| && k != p :: t.tables.payouts[k] == j.tables.payouts[k]
    ensures JointExplained(cfg, t, account)
  {
    TransferPosts(j, t, p, account);
    PaidOutAdded(account, j.engine.books, t.engine.books, j.tables.payouts, t.tables.payouts, p);
    PaymentsSame(cfg, account, j.engine.books, t.engine.books, j.engine.bookings, t.engine.bookings);
    OtherGroupsSound(cfg, j, t, p);
  }

  lemma OtherGroupsSound(cfg: Config, j: Joint, t: Joint, p: nat)
    requires PayoutsSound(j) && ReservationPayments.NoEarlyPosting(j.engine)
             && RefundsSound(cfg, j.engine) && p < |j.tables.payouts|
    requires t.engine == j.engine.(books := t.engine.books)
    requires forall other | other != Ledger.PayoutPaid(p) ::
             Ledger.EntriesOf(t.engine.books, other) == Ledger.EntriesOf(j.engine.books, other)
    requires SamePayouts(j.tables.payouts, t.tables.payouts) && !t.tables.payouts[p].status.Pending?
    requires forall k | 0 <= k < |j.tables.payouts| && k != p :: t.tables.payouts[k] == j.tables.payouts[k]
    ensures PayoutsSound(t) && ReservationPayments.NoEarlyPosting(t.engine) && RefundsSound(cfg, t.engine)
  {
  }

  lemma TransferPosts(j: Joint, t: Joint, p: nat, account: Ledger.Account)
    requires p < |j.tables.payouts| && j.tables.payouts[p].amount > 0
    requires var q := j.tables.payouts[p];
             t.engine.books == Ledger.Apply(j.engine.books, Ledger.PayoutPaid(p),
                                            Ledger.PayoutLines(q.amount, q.hotel)) != j.engine.books
    ensures Ledger.EntriesOf(j.engine.books, Ledger.PayoutPaid(p))
            == [] != Ledger.EntriesOf(t.engine.books, Ledger.PayoutPaid(p))
    ensures forall other | other != Ledger.PayoutPaid(p) ::
            Ledger.EntriesOf(t.engine.books, other) == Ledger.EntriesOf(j.engine.books, other)
    ensures Ledger.Net(t.engine.books, account)
            == Ledger.Net(j.engine.books, account) + PayoutEffect(j.tables.payouts[p], account)
  {
    var q := j.tables.payouts[p];
    PostedOnce(j.engine.books, t.engine.books, Ledger.PayoutPaid(p), Ledger.PayoutLines(q.amount, q.hotel), account);
    Ledger.PayoutAcceptedExactly(q.amount, q.hotel);
    Ledger.PayoutNet(q.amount, q.hotel, account);
  }

  lemma JointStepExplained(cfg: Config, j: Joint, e: JointEvent, account: Ledger.Account)
    requires JointExplained(cfg, j, account)
    ensures JointExplained(cfg, JointStep(cfg, j, e), account)
  {
    match e
    case OfEngine(e') => EngineExplained(cfg, j, e', account);
    case OnPayout(i, owner, cutoff, itemSeen, ready, feeRate) =>
      if i < |j.engine.bookings| {
        PayoutExplained(cfg, j, ReservationPayouts.PayoutRow(j.engine.bookings[i], i, owner, itemSeen, ready),
                        feeRate, account);
      }
    case OnTransfer(p, transferred, notified) => TransferExplained(cfg, j, p, transferred, notified, account);
  }

  /** Through every run of engine and payouts together, in any order and with any answers of the provider, each
      account is the payments posted less the refunds marked refunded plus the payouts posted. */
  lemma {:induction false} EveryAccountStaysExplained(cfg: Config, now: int,
                                                      rows: Table, events: seq<JointEvent>, account: Ledger.Account)
    ensures JointExplained(cfg, JointRun(cfg, JointStart(now, rows), events), account)
  {
    if events != [] {
      var n := |events| - 1;
      EveryAccountStaysExplained(cfg, now, rows, events[..n], account);
      JointStepExplained(cfg, JointRun(cfg, JointStart(now, rows), events[..n]), events[n], account);
    }
  }

  // ---- When a hotel's account goes negative ----

  /** The hotel's share of the payments posted, of the refunds made, and the payouts posted to it. */
  function Earned(cfg: Config, j: Joint, hotel: nat): int {
    -PaymentsOn(cfg, Ledger.HotelPayable(hotel), j.engine.books, j.engine.bookings)
  }

  function GivenBack(cfg: Config, j: Joint, hotel: nat): int {
    -RefundsOn(cfg, Ledger.HotelPayable(hotel), j.engine.refunds)
  }

  function Received(j: Joint, hotel: nat): int {
    PaidOut(Ledger.HotelPayable(hotel), j.engine.books, j.tables.payouts)
  }

  /** After every joint run a hotel owes the platform exactly if its shares of the refunds and the payouts it has
      received come to more than its shares of the payments. */
  lemma HotelOwesExactly(cfg: Config, now: int, rows: Table, events: seq<JointEvent>, hotel: nat)
    ensures var j := JointRun(cfg, JointStart(now, rows), events);
            && Settlement.Owed(j.engine.books, hotel)
               == Earned(cfg, j, hotel) - GivenBack(cfg, j, hotel) - Received(j, hotel)
            && (Settlement.Owed(j.engine.books, hotel) < 0
                <==> Earned(cfg, j, hotel) < GivenBack(cfg, j, hotel) + Received(j, hotel))
  {
    EveryAccountStaysExplained(cfg, now, rows, events, Ledger.HotelPayable(hotel));
  }

  /** What an event takes from a hotel's account, read from the state before it: its share of a refund, or a
      payout whose money moves. */
  function Takes(cfg: Config, j: Joint, e: JointEvent, hotel: nat): int {
    match e
    case OfEngine(e') =>
      if e'.OnCancel? && ReservationRefunds.CancelCanRefund(cfg, j.engine, e', e'.cancelled)
         && j.engine.bookings[e'.cancelled].charged && j.engine.bookings[e'.cancelled].hotel == hotel
      then var amount := ReservationRefunds.RefundAmount(j.engine, e', e'.cancelled);
          amount - Share(amount, cfg.feeRate)
      else 0
    case OnTransfer(p, transferred, _) =>
      if p < |j.tables.payouts| && j.tables.payouts[p].status.Pending?
          && transferred && j.tables.payouts[p].hotel == hotel
      then j.tables.payouts[p].amount else 0
    case _ => 0
  }

  /** What it gives: its share of a payment posted for the first time. */
  function Gives(cfg: Config, j: Joint, e: JointEvent, hotel: nat): int {
    if e.OfEngine? && e.e.OnPaymentSucceeded? && e.e.paid < |j.engine.bookings| then
      var b := j.engine.bookings[e.e.paid];
      if !b.tx.TxCompleted? && !b.status.BookingExpired? && b.hotel == hotel && Fits(cfg, b.total)
         && Ledger.EntriesOf(j.engine.books, Ledger.PaymentSucceeded(e.e.paid)) == []
      then b.total - Share(b.total, cfg.feeRate) else 0
    else 0
  }

  lemma WebhookMoves(cfg: Config, j: Joint, i: nat, refunded: bool, hotel: nat)
    ensures var e := OfEngine(OnPaymentSucceeded(i, refunded));
            Settlement.Owed(HandlePaymentSucceeded(cfg, j.engine, i, refunded).0.books, hotel)
            == Settlement.Owed(j.engine.books, hotel) + Gives(cfg, j, e, hotel)
  {
    var s, t := j.engine, HandlePaymentSucceeded(cfg, j.engine, i, refunded).0;
    if i < |s.bookings| {
      var b := s.bookings[i];
      var key, lines := Ledger.PaymentSucceeded(i), Ledger.PaymentLines(b.total, b.hotel, cfg.feeRate);
      Ledger.PaymentAcceptedExactly(b.total, b.hotel, cfg.feeRate);
      if t.books != s.books {
        PostedOnce(s.books, t.books, key, lines, Ledger.HotelPayable(hotel));
        Ledger.PaymentNet(b.total, b.hotel, cfg.feeRate, Ledger.HotelPayable(hotel));
      } else if Ledger.EntriesOf(s.books, key) == [] {
        FreshPosts(s.books, key, lines);
      }
    }
  }

  lemma RefundMoves(cfg: Config, s: State, i: nat, cents: int, provider: ProviderRefund, hotel: nat)
    requires RefundsSound(cfg, s) && i < |s.bookings|
    ensures var b := s.bookings[i];
            var amount := if cents <= b.total then cents else b.total;
            Settlement.Owed(ProcessRefund(cfg, s, i, cents, provider).books, hotel)
            == Settlement.Owed(s.books, hotel)
               - if b.charged && provider.RefundDone? && Fits(cfg, amount) && b.hotel == hotel
                    then amount - Share(amount, cfg.feeRate) else 0
  {
    var b, t := s.bookings[i], ProcessRefund(cfg, s, i, cents, provider);
    var amount := if cents <= b.total then cents else b.total;
    var key, lines := Ledger.RefundSucceeded(|s.refunds|), Ledger.RefundLines(amount, b.hotel, cfg.feeRate);
    Ledger.RefundAcceptedExactly(amount, b.hotel, cfg.feeRate);
    FreshPosts(s.books, key, lines);
    if t.books != s.books {
      PostedOnce(s.books, t.books, key, lines, Ledger.HotelPayable(hotel));
      Ledger.RefundNet(amount, b.hotel, cfg.feeRate, Ledger.HotelPayable(hotel));
    }
  }

  lemma CancelMoves(cfg: Config, j: Joint, e: Event, hotel: nat)
    requires RefundsSound(cfg, j.engine) && e.OnCancel?
    ensures Settlement.Owed(Step(cfg, j.engine, e).books, hotel)
            == Settlement.Owed(j.engine.books, hotel) - Takes(cfg, j, OfEngine(e), hotel)
  {
    if e.cancelled < |j.engine.bookings| && e.refundCents.Some? {
      RefundMoves(cfg, j.engine, e.cancelled, e.refundCents.value, e.provider, hotel);
    }
  }

  lemma TransferMoves(cfg: Config, j: Joint, p: nat, transferred: bool, notified: bool, hotel: nat)
    requires PayoutsSound(j)
    ensures var e := OnTransfer(p, transferred, notified);
            Settlement.Owed(JointStep(cfg, j, e).engine.books, hotel)
                == Settlement.Owed(j.engine.books, hotel) - Takes(cfg, j, e, hotel)
  {
    var t := JointStep(cfg, j, OnTransfer(p, transferred, notified));
    if p < |j.tables.payouts| && j.tables.payouts[p].status.Pending? && transferred {
      var q := j.tables.payouts[p];
      Ledger.PayoutAcceptedExactly(q.amount, q.hotel);
      FreshPosts(j.engine.books, Ledger.PayoutPaid(p), Ledger.PayoutLines(q.amount, q.hotel));
      TransferPosts(j, t, p, Ledger.HotelPayable(hotel));
    }
  }

  lemma JointStepMoves(cfg: Config, j: Joint, e: JointEvent, hotel: nat)
    requires PayoutsSound(j) && RefundsSound(cfg, j.engine)
    ensures Settlement.Owed(JointStep(cfg, j, e).engine.books, hotel)
         == Settlement.Owed(j.engine.books, hotel) + Gives(cfg, j, e, hotel) - Takes(cfg, j, e, hotel)
  {
    match e
    case OfEngine(OnPaymentSucceeded(i, refunded)) => WebhookMoves(cfg, j, i, refunded, hotel);
    case OfEngine(OnCancel(_, _, _, _)) => CancelMoves(cfg, j, e.e, hotel);
    case OfEngine(_) => ReservationPayments.LedgerUntouched(cfg, j.engine, e.e);
    case OnTransfer(p, transferred, notified) => TransferMoves(cfg, j, p, transferred, notified, hotel);
    case OnPayout(_, _, _, _, _, _) =>
  }

  /** After every joint run, the next event takes a hotel below zero exactly if it takes more than the account
      holds: a refund after a payout does, and nothing in the code looks. */
  lemma GoesNegativeExactly(cfg: Config, now: int, rows: Table, events: seq<JointEvent>, e: JointEvent, hotel: nat)
    ensures var j := JointRun(cfg, JointStart(now, rows), events);
            Settlement.Owed(JointStep(cfg, j, e).engine.books, hotel) < 0
            <==> Settlement.Owed(j.engine.books, hotel) + Gives(cfg, j, e, hotel) < Takes(cfg, j, e, hotel)
  {
    EveryAccountStaysExplained(cfg, now, rows, events, Ledger.HotelPayable(hotel));
    JointStepMoves(cfg, JointRun(cfg, JointStart(now, rows), events), e, hotel);
  }

  // ---- From an empty table ----

  function Lifted(events: seq<Event>): seq<JointEvent> {
    seq(|events|, k requires 0 <= k < |events| => OfEngine(events[k]))
  }

  lemma {:induction false} EngineAlone(cfg: Config, now: int, rows: Table, events: seq<Event>)
    ensures JointRun(cfg, JointStart(now, rows), Lifted(events))
            == Joint(Run(cfg, Start(now, rows), events), Settlement.Tables([], []))
  {
    if events != [] {
      var n := |events| - 1;
      assert Lifted(events)[..n] == Lifted(events[..n]);
      EngineAlone(cfg, now, rows, events[..n]);
    }
  }

  lemma JointSnoc(cfg: Config, j: Joint, events: seq<JointEvent>, e: JointEvent)
    ensures JointRun(cfg, j, events + [e]) == JointStep(cfg, JointRun(cfg, j, events), e)
  {
    assert (events + [e])[..|events|] == events;
  }

  /** The guest pays, the booking is paid out and the money moves; then the guest cancels and is refunded. */
  function PaidOutGuest(total: int): seq<JointEvent> {
    Lifted(Scenarios.PayingGuest())
    + [OnPayout(0, Some(0), 0, false, true, Fraction(0, 1))]
    + [OnTransfer(0, true, true)]
    + [OfEngine(OnCancel(0, 0, Some(total), RefundDone))]
  }

  /** The hotel is left owing the whole total: it was paid out all of it, for the payment intent stored no
      commission, and the refund took its share once more. */
  lemma PaidOutGuestLeavesDebt(cfg: Config, price: nat)
    requires Fits(cfg, Pricing.Total(price, cfg.rates))
    ensures var total := Pricing.Total(price, cfg.rates);
            Settlement.Owed(JointRun(cfg, JointStart(0, Scenarios.OneRoom(price)), PaidOutGuest(total)).engine.books,
                            0) == -total
  {
    var total := Pricing.Total(price, cfg.rates);
    var start, cancel := JointStart(0, Scenarios.OneRoom(price)), OfEngine(OnCancel(0, 0, Some(total), RefundDone));
    var payout, transfer := OnPayout(0, Some(0), 0, false, true, Fraction(0, 1)), OnTransfer(0, true, true);
    var paying := Lifted(Scenarios.PayingGuest());
    EngineAlone(cfg, 0, Scenarios.OneRoom(price), Scenarios.PayingGuest());
    var j := JointRun(cfg, start, paying);
    JointSnoc(cfg, start, paying, payout);
    JointSnoc(cfg, start, paying + [payout], transfer);
    JointSnoc(cfg, start, paying + [payout] + [transfer], cancel);
    EveryAccountStaysExplained(cfg, 0, Scenarios.OneRoom(price), paying, Ledger.HotelPayable(0));
    var paid := ReservationRefunds.PaidGuest(cfg, price);
    DebtAfterPayout(cfg, j, total);
  }

  /** The three steps after the payment. */
  lemma DebtAfterPayout(cfg: Config, j: Joint, total: int)
    requires |j.engine.bookings| == 1 && Scenarios.Paid(cfg, j.engine, 0)
             && Fits(cfg, total) && j.tables == Settlement.Tables([], [])
    requires var b := j.engine.bookings[0];
             b.total == total && b.hotel == 0 && b.buyer == 0 && b.commission == 0 && b.checkIn == 0
    requires JointExplained(cfg, j, Ledger.HotelPayable(0)) && j.engine.refunds == []
    ensures var e1, e2 := OnPayout(0, Some(0), 0, false, true, Fraction(0, 1)), OnTransfer(0, true, true);
            var e3 := OfEngine(OnCancel(0, 0, Some(total), RefundDone));
            Settlement.Owed(JointStep(cfg, JointStep(cfg, JointStep(cfg, j, e1), e2), e3).engine.books, 0) == -total
  {
    var e1, e2 := OnPayout(0, Some(0), 0, false, true, Fraction(0, 1)), OnTransfer(0, true, true);
    var e3 := OfEngine(OnCancel(0, 0, Some(total), RefundDone));
    var j1 := JointStep(cfg, j, e1);
    var j2 := JointStep(cfg, j1, e2);
    PaidGuestIsOwed(cfg, j, total);
    JointStepExplained(cfg, j, e1, Ledger.HotelPayable(0));
    JointStepExplained(cfg, j1, e2, Ledger.HotelPayable(0));
    GuestPaidOut(cfg, j, total);
    GuestTransferred(cfg, j1, total);
    GuestRefunded(cfg, j2, total);
  }

  lemma GuestPaidOut(cfg: Config, j: Joint, total: int)
    requires |j.engine.bookings| == 1 && Scenarios.Paid(cfg, j.engine, 0)
             && 0 < total && j.tables == Settlement.Tables([], [])
    requires var b := j.engine.bookings[0]; b.total == total && b.hotel == 0 && b.commission == 0 && b.checkIn == 0
    ensures var t := JointStep(cfg, j, OnPayout(0, Some(0), 0, false, true, Fraction(0, 1)));
            t.engine == j.engine && t.tables.payouts == [Settlement.Payout(0, 0, total, 0, Settlement.Pending)]
  {
  }

  lemma GuestTransferred(cfg: Config, j: Joint, total: int)
    requires PayoutsSound(j) && j.tables.payouts == [Settlement.Payout(0, 0, total, 0, Settlement.Pending)]
    ensures var t := JointStep(cfg, j, OnTransfer(0, true, true));
            t.engine.bookings == j.engine.bookings
                && Settlement.Owed(t.engine.books, 0) == Settlement.Owed(j.engine.books, 0) - total
  {
    TransferMoves(cfg, j, 0, true, true, 0);
  }

  lemma GuestRefunded(cfg: Config, j: Joint, total: int)
    requires RefundsSound(cfg, j.engine) && |j.engine.bookings| == 1 && Fits(cfg, total)
    requires var b := j.engine.bookings[0];
             b.total == total && b.hotel == 0 && b.buyer == 0 && b.charged && b.status.Confirmed?
    ensures Settlement.Owed(JointStep(cfg, j, OfEngine(OnCancel(0, 0, Some(total), RefundDone))).engine.books, 0)
         == Settlement.Owed(j.engine.books, 0) - (total - Share(total, cfg.feeRate))
  {
    CancelMoves(cfg, j, OnCancel(0, 0, Some(total), RefundDone), 0);
  }

  lemma PaidGuestIsOwed(cfg: Config, j: Joint, total: int)
    requires |j.engine.bookings| == 1 && Scenarios.Paid(cfg, j.engine, 0) && Fits(cfg, total) && j.tables.payouts == []
    requires j.engine.bookings[0].total == total && j.engine.bookings[0].hotel == 0
    requires JointExplained(cfg, j, Ledger.HotelPayable(0)) && j.engine.refunds == []
    ensures Settlement.Owed(j.engine.books, 0) == total - Share(total, cfg.feeRate)
  {
    OnePayment(cfg, Ledger.HotelPayable(0), j.engine.books, j.engine.bookings);
    assert RefundsOn(cfg, Ledger.HotelPayable(0), j.engine.refunds) == 0;
    assert PaidOut(Ledger.HotelPayable(0), j.engine.books, j.tables.payouts) == 0;
  }

  lemma OnePayment(cfg: Config, account: Ledger.Account, books: Ledger.Books, bookings: seq<Booking>)
    requires |bookings| == 1 && Ledger.EntriesOf(books, Ledger.PaymentSucceeded(0)) != []
    ensures PaymentsOn(cfg, account, books, bookings)
            == Ledger.PaymentEffect(bookings[0].total, bookings[0].hotel, cfg.feeRate, account)
  {
    assert PaymentsOn(cfg, account, books, bookings[..0]) == 0;
  }
}
