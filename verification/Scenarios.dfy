/** Runs from an empty table that other modules start from: one guest, one room, one night, any price. */
module Scenarios {
  import opened Common
  import opened Inventory
  import opened Money
  import opened Reservations
  import ReservationPayments
  import Pricing
  import Ledger

  /** One room, free for one night at a price. */
  function OneRoom(price: nat): Table {
    map[Cell(0, 0) := Row(1, 0, 0, Open, price)]
  }

  function Request(): seq<RoomQty> {
    [RoomQty(0, 1)]
  }

  function Guest(): seq<Event> {
    [OnCreateHold(0, 0, Request(), 0, 1), OnPaymentIntent(0, true)]
  }

  /** A guest holds the room, books it by a payment intent, and the payment succeeds. */
  function PayingGuest(): seq<Event> {
    Guest() + [OnPaymentSucceeded(0, false)]
  }

  /** A guest who does not pay in time. */
  function LateGuest(): seq<Event> {
    Guest() + [Tick(WINDOW_MS)] + [OnExpireBooking(0)]
  }

  /** A paid and confirmed booking, as cancelBooking and the refund notices find it. */
  ghost predicate Paid(cfg: Config, s: State, i: nat) {
    && i < |s.bookings| && s.bookings[i].status.Confirmed? && s.bookings[i].charged
    && ReservationPayments.PaidWithRooms(cfg, s, i)
  }

  predicate SameTerms(a: Booking, b: Booking) {
    b.total == a.total && b.hotel == a.hotel && b.buyer == a.buyer
  }

  lemma OneRoomQuote(cfg: Config, price: nat)
    ensures var q := Pricing.QuoteOf(OneRoom(price), Request(), 0, 1, cfg.rates);
            q.Ok? && q.value.total == Pricing.Total(price, cfg.rates)
  {
    assert LastQuantity(Request(), 0) == 1;
    assert Pricing.QuotedRooms(Request()) == Request();
    OneRoomSubtotal(price);
  }

  lemma OneRoomSubtotal(price: nat)
    ensures Pricing.Subtotal(OneRoom(price), Request(), 0, 1) == price
  {
    var rooms := Request();
    assert rooms[..0] == [];
    assert Pricing.RoomSubtotal(OneRoom(price), rooms[0], 0, 0) == 0;
    assert Pricing.RoomSubtotal(OneRoom(price), rooms[0], 0, 1) == price;
  }

  lemma OneRoomAccepted(price: nat)
    ensures Accepts(OneRoom(price), Request(), 0, 1)
  {
    assert LastQuantity(Request(), 0) == 1;
    forall d | 0 <= d < 1 ensures NightFound(OneRoom(price), Request(), d) {
      assert Cell(Request()[0].room, d) in OneRoom(price);
    }
  }

  lemma RequestClaims()
    ensures Claim(Request(), 0, 1, Cell(0, 0)) == 1
  {
    assert Request()[..0] == [];
  }

  /** The one row, with these counters. */
  function Counters(price: nat, booked: int, held: int): Table {
    map[Cell(0, 0) := Row(1, booked, held, Open, price)]
  }

  lemma MoveOne(price: nat, booked: int, held: int, counter: Counter, dir: Direction)
    ensures Adjusted(Counters(price, booked, held), counter, dir, Request(), 0, 1)
         == var d := Signed(dir, 1);
            if counter.Booked? then Counters(price, booked + d, held) else Counters(price, booked, held + d)
  {
    RequestClaims();
  }

  /** The state before the booking. */
  ghost predicate GuestHolding(cfg: Config, s: State, price: nat) {
    && s.holds == [Hold(0, 0, Request(), 0, 1, Pricing.Total(price, cfg.rates), Active, WINDOW_MS, None)]
    && s.bookings == [] && s.books == [] && s.refunds == [] && s.late == [] && s.now == 0
    && s.rows == Counters(price, 0, 1)
  }

  lemma GuestHolds(cfg: Config, price: nat)
    ensures GuestHolding(cfg, CreateHold(cfg, Start(0, OneRoom(price)), 0, 0, Request(), 0, 1).0, price)
  {
    assert Start(0, OneRoom(price)).rows == OneRoom(price);
    OneRoomQuote(cfg, price);
    OneRoomAccepted(price);
    MoveOne(price, 0, 0, Held, Up);
  }

  function GuestBooking(cfg: Config, price: nat): Booking {
    Booking(0, 0, 0, FromPaymentIntent, Request(), 0, 1, 0, Pricing.Total(price, cfg.rates), 0,
            PendingPayment, WINDOW_MS, None, TxPending, false, false)
  }

  /** The state before the payment. */
  ghost predicate GuestBooked(s: State, b: Booking, price: nat) {
    && s.bookings == [b] && s.books == [] && s.refunds == [] && s.late == []
    && s.rows == Counters(price, 1, 0)
  }

  lemma GuestBooks(cfg: Config, s: State, price: nat)
    requires GuestHolding(cfg, s, price) && Pricing.Total(price, cfg.rates) > 0
    ensures var t := CreatePaymentIntent(s, 0, true).0; GuestBooked(t, GuestBooking(cfg, price), price) && t.now == 0
  {
    assert s.holds[..0] == [];
    assert OldestActive(s.holds, 0, 0) == Some(0);
    MoveOne(price, 0, 1, Held, Down);
    MoveOne(price, 0, 0, Booked, Up);
  }

  /** The run up to the booking. */
  lemma BookedGuest(cfg: Config, price: nat) returns (s: State)
    requires Pricing.Total(price, cfg.rates) > 0
    ensures s == Run(cfg, Start(0, OneRoom(price)), Guest())
    ensures GuestBooked(s, GuestBooking(cfg, price), price) && s.now == 0
  {
    var s0 := Start(0, OneRoom(price));
    var s1 := CreateHold(cfg, s0, 0, 0, Request(), 0, 1).0;
    s := CreatePaymentIntent(s1, 0, true).0;
    GuestHolds(cfg, price);
    GuestBooks(cfg, s1, price);
    GuestRun(cfg, s0);
  }

  lemma GuestRun(cfg: Config, s: State)
    ensures Run(cfg, s, Guest()) == CreatePaymentIntent(CreateHold(cfg, s, 0, 0, Request(), 0, 1).0, 0, true).0
  {
    RunOfTwo(cfg, s, OnCreateHold(0, 0, Request(), 0, 1), OnPaymentIntent(0, true));
  }

  /** The engine reaches a paid booking for every price whose fee split the ledger accepts. */
  lemma GuestPays(cfg: Config, price: nat)
    requires var total := Pricing.Total(price, cfg.rates); 0 < total && Share(total, cfg.feeRate) <= total
    ensures var s := Run(cfg, Start(0, OneRoom(price)), PayingGuest());
            && Paid(cfg, s, 0) && s.refunds == [] && s.late == []
               && |s.bookings| == 1 && s.rows == Counters(price, 1, 0)
            && SameTerms(GuestBooking(cfg, price), s.bookings[0]) && s.bookings[0].rooms == Request()
            && s.bookings[0].checkIn == 0 && s.bookings[0].checkOut == 1 && s.bookings[0].commission == 0
            && s.books == Ledger.Apply([], Ledger.PaymentSucceeded(0),
                                       Ledger.PaymentLines(s.bookings[0].total, 0, cfg.feeRate))
  {
    var s := BookedGuest(cfg, price);
    RunSnoc(cfg, Start(0, OneRoom(price)), Guest(), OnPaymentSucceeded(0, false));
    FirstWebhookPays(cfg, s, 0);
  }

  /** The first success webhook of a waiting booking posts its payment and confirms it. */
  lemma FirstWebhookPays(cfg: Config, s: State, i: nat)
    requires i < |s.bookings| && ReservationPayments.Waiting(s, i)
    requires 0 < s.bookings[i].total && Share(s.bookings[i].total, cfg.feeRate) <= s.bookings[i].total
    ensures var b, t := s.bookings[i], HandlePaymentSucceeded(cfg, s, i, false).0;
            && Paid(cfg, t, i)
            && t == s.(bookings := s.bookings[i := b.(tx := TxCompleted, charged := true, status := Confirmed)],
                       books := Ledger.Apply(s.books, Ledger.PaymentSucceeded(i),
                                             Ledger.PaymentLines(b.total, b.hotel, cfg.feeRate)))
  {
    var b := s.bookings[i];
    var lines := Ledger.PaymentLines(b.total, b.hotel, cfg.feeRate);
    Ledger.PaymentAcceptedExactly(b.total, b.hotel, cfg.feeRate);
    Ledger.PostOnce(s.books, Ledger.PaymentSucceeded(i), lines, lines, Ledger.PaymentSucceeded(i));
  }

  /** The guest's booking, expired at its deadline. */
  function ExpiredGuest(cfg: Config, price: nat): Booking {
    GuestBooking(cfg, price).(status := BookingExpired, cancelledAt := Some(WINDOW_MS), tx := TxCancelled,
                              roomsReturned := true)
  }

  /** The engine reaches an expired booking whose payment has not arrived. */
  lemma GuestIsLate(cfg: Config, price: nat) returns (s: State)
    requires Pricing.Total(price, cfg.rates) > 0
    ensures s == Run(cfg, Start(0, OneRoom(price)), LateGuest())
    ensures s.bookings == [ExpiredGuest(cfg, price)]
    ensures s.books == [] && s.refunds == [] && s.late == []
  {
    var booked := BookedGuest(cfg, price);
    LateRun(cfg, Start(0, OneRoom(price)));
    s := ExpireBooking(Waited(booked), 0).0;
    GuestExpires(cfg, Waited(booked), price);
  }

  function Waited(s: State): State {
    s.(now := s.now + WINDOW_MS)
  }

  lemma LateRun(cfg: Config, s: State)
    ensures Run(cfg, s, LateGuest()) == ExpireBooking(Waited(Run(cfg, s, Guest())), 0).0
  {
    RunThenTick(cfg, s, Guest(), WINDOW_MS);
    RunThenExpiry(cfg, s, Guest() + [Tick(WINDOW_MS)], 0);
  }

  lemma RunThenTick(cfg: Config, s: State, events: seq<Event>, ms: nat)
    ensures var t := Run(cfg, s, events); Run(cfg, s, events + [Tick(ms)]) == t.(now := t.now + ms)
  {
    RunSnoc(cfg, s, events, Tick(ms));
  }

  lemma RunThenExpiry(cfg: Config, s: State, events: seq<Event>, i: nat)
    ensures Run(cfg, s, events + [OnExpireBooking(i)]) == ExpireBooking(Run(cfg, s, events), i).0
  {
    RunSnoc(cfg, s, events, OnExpireBooking(i));
  }

  lemma GuestExpires(cfg: Config, s: State, price: nat)
    requires GuestBooked(s, GuestBooking(cfg, price), price) && s.now == WINDOW_MS
    ensures var t := ExpireBooking(s, 0).0;
            t.bookings == [ExpiredGuest(cfg, price)] && t.books == [] && t.refunds == [] && t.late == []
  {
    assert ExpireBooking(s, 0).0.bookings[0] == ExpiredGuest(cfg, price);
  }
}
