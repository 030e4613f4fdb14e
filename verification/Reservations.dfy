/**
 The reservation engine as a state machine: each database transaction is one all-or-nothing step.
 Holds and bookings are identified by their position; the clock only moves forward, by Tick events.
 */
module Reservations {
  import opened Common
  import opened Inventory
  import opened Money
  import Pricing
  import Ledger
  import StableJson

  /** 15 minutes, in milliseconds: the life of a hold and the default payment window. */
  const WINDOW_MS := 15 * 60 * 1000

  datatype Config = Config(rates: Pricing.Rates, feeRate: Rate)

  datatype HoldStatus = Active | Released | Expired | Completed

  datatype Hold = Hold(
    user: nat, hotel: nat, rooms: seq<RoomQty>, checkIn: int, checkOut: int,
    total: int, status: HoldStatus, expiresAt: int, releasedAt: Option<int>)

  datatype BookingStatus =
    PendingPayment | Confirmed | PaymentFailed | BookingExpired | CheckedIn | StayCompleted | Cancelled

  datatype TxStatus = TxPending | TxProcessing | TxCompleted | TxFailed | TxCancelled | TxRefunded | TxPartiallyRefunded

  /** Which operation made a booking: an idempotent request, or the older payment-intent call. */
  datatype Source = FromRequest(id: KeyId) | FromPaymentIntent

  /** A booking with its rooms and its payment transaction, which are created together.
      `roomsReturned` is the model's own record of whether the inventory has been given back. */
  datatype Booking = Booking(
    buyer: nat, hotel: nat, hold: nat, source: Source, rooms: seq<RoomQty>, checkIn: int, checkOut: int,
    subtotal: int, total: int, commission: int,
    status: BookingStatus, expiresAt: int, cancelledAt: Option<int>,
    tx: TxStatus, charged: bool, roomsReturned: bool)

  datatype KeyId = KeyId(user: nat, key: string)

  datatype Response = Response(booking: nat, total: int)

  datatype KeyStatus = InProgress | Done(response: Response) | FailedKey

  datatype KeyRecord = KeyRecord(hash: StableJson.Text, hold: nat, status: KeyStatus)

  /** One entry for every time inventory is given back, kept by the model to count them. */
  datatype Return = HoldReturn(hold: nat) | BookingReturn(booking: nat)

  /** `Refunded` once the provider has paid and the ledger has posted, `RefundOpen` while the provider has not
      finished. */
  datatype RefundState = Refunded | RefundOpen | RefundFailed

  /** A row of the refunds table; its position is its id. */
  datatype RefundRow = RefundRow(booking: nat, hotel: nat, amount: int, state: RefundState)

  /** One entry for every payment that arrives for an expired booking, with the provider's answer to its
      refund, kept by the model to count them. */
  datatype LatePayment = LatePayment(booking: nat, amount: nat, refunded: bool)

  datatype State = State(
    now: int, rows: Table, holds: seq<Hold>, bookings: seq<Booking>,
    keys: map<KeyId, KeyRecord>, books: Ledger.Books, refunds: seq<RefundRow>,
    log: seq<Return>, late: seq<LatePayment>)

  datatype Reply =
    | Refused(error: Error)
    | Unchanged
    | Accepted(id: nat)
    | Replayed(response: Response)

  // ---- Holds ----

  /** createHold: validate, check, price, then insert the hold and raise the held counters. */
  function CreateHold(cfg: Config, s: State, user: nat, hotel: nat,
                      rooms: seq<RoomQty>, checkIn: int, checkOut: int): (State, Reply)
  {
    if rooms == [] then (s, Refused(InvalidRooms))
    else if checkIn >= checkOut then (s, Refused(InvalidDateRange))
    else if !Accepts(s.rows, rooms, checkIn, checkOut) then (s, Refused(RoomsNotAvailable))
    else
      match Pricing.QuoteOf(s.rows, rooms, checkIn, checkOut, cfg.rates)
      case Err(e) => (s, Refused(e))
      case Ok(quote) =>
        var hold := Hold(user, hotel, rooms, checkIn, checkOut, quote.total, Active, s.now + WINDOW_MS, None);
        (s.(rows := Adjusted(s.rows, Held, Up, rooms, checkIn, checkOut), holds := s.holds + [hold]),
         Accepted(|s.holds|))
  }

  /** Give back the held rooms and close the hold. */
  function FreeHold(s: State, i: nat, status: HoldStatus): State
    requires i < |s.holds|
  {
    var h := s.holds[i];
    s.(rows := Adjusted(s.rows, Held, Down, h.rooms, h.checkIn, h.checkOut),
       holds := s.holds[i := h.(status := status, releasedAt := Some(s.now))],
       log := s.log + [HoldReturn(i)])
  }

  /** releaseHold. */
  function ReleaseHold(s: State, i: nat, user: nat, status: HoldStatus): (State, Reply) {
    if i >= |s.holds| then (s, Refused(HoldNotFound))
    else if s.holds[i].user != user then (s, Refused(Forbidden))
    else if !s.holds[i].status.Active? then (s, Refused(HoldNotActive))
    else if s.holds[i].rooms == [] then (s, Refused(InvalidRooms))
    else (FreeHold(s, i, status), Accepted(i))
  }

  predicate HoldDue(h: Hold, now: int) {
    h.status.Active? && h.expiresAt <= now
  }

  /** expireHoldIfDue: the status and the deadline are read again under the row lock. */
  function ExpireHold(s: State, i: nat): (State, Reply) {
    if i >= |s.holds| || !HoldDue(s.holds[i], s.now) then (s, Unchanged)
    else if s.holds[i].rooms == [] then (s, Refused(InvalidRooms))
    else (FreeHold(s, i, Expired), Accepted(i))
  }

  // ---- From hold to booking ----

  /** Complete the hold, reserve its rooms and insert the booking.  reserveRooms checks no availability:
      it is covered by the rooms that the hold has just given back. */
  function Convert(s: State, i: nat, booking: Booking): State
    requires i < |s.holds|
  {
    var h := s.holds[i];
    var freed := FreeHold(s, i, Completed);
    freed.(rows := Adjusted(freed.rows, Booked, Up, h.rooms, h.checkIn, h.checkOut), bookings := s.bookings + [booking])
  }

  function BookingFromQuote(s: State, i: nat, id: KeyId, quote: Pricing.Quote): Booking
    requires i < |s.holds|
  {
    var h := s.holds[i];
    Booking(h.user, h.hotel, i, FromRequest(id), Pricing.QuotedRooms(h.rooms), h.checkIn, h.checkOut,
            quote.subtotal, quote.total, quote.commission,
            PendingPayment, s.now + WINDOW_MS, None, TxPending, false, false)
  }

  /** The transaction inside createBookingFromHold. */
  function BookHold(cfg: Config, s: State, i: nat, id: KeyId): (State, Reply) {
    if i >= |s.holds| then (s, Refused(HoldNotFound))
    else
      var h := s.holds[i];
      if h.user != id.user then (s, Refused(Forbidden))
      else if !h.status.Active? then (s, Refused(HoldNotActive))
      else if h.expiresAt <= s.now then (s, Refused(HoldExpired))
      else
        match Pricing.QuoteOf(s.rows, h.rooms, h.checkIn, h.checkOut, cfg.rates)
        case Err(e) => (s, Refused(e))
        case Ok(quote) => (Convert(s, i, BookingFromQuote(s, i, id, quote)), Accepted(|s.bookings|))
  }

  /** createBookingFromHold up to the idempotency record, which commits before the transaction starts. */
  function BeginBooking(s: State, id: KeyId, body: StableJson.Json, hold: nat): (State, Reply) {
    if id.key == "" then (s, Refused(KeyRequired))
    else
      var hash := StableJson.Stringify(body);
      if id !in s.keys then (s.(keys := s.keys[id := KeyRecord(hash, hold, InProgress)]), Unchanged)
      else if s.keys[id].hash != hash then (s, Refused(KeyReused))
      else
        match s.keys[id].status
        case Done(response) => (s, Replayed(response))
        case _ => (s, Refused(RequestInProgress))
  }

  /** The rest of createBookingFromHold: the transaction, then the record marked completed or failed. */
  function FinishBooking(cfg: Config, s: State, id: KeyId): (State, Reply) {
    if id !in s.keys || !s.keys[id].status.InProgress? then (s, Unchanged)
    else
      var record := s.keys[id];
      var (after, reply) := BookHold(cfg, s, record.hold, id);
      match reply
      case Accepted(booking) =>
        var response := Response(booking, after.bookings[booking].total);
        (after.(keys := after.keys[id := record.(status := Done(response))]), reply)
      case _ => (s.(keys := s.keys[id := record.(status := FailedKey)]), reply)
  }

  predicate Usable(h: Hold, user: nat, now: int) {
    h.user == user && h.status.Active? && h.expiresAt > now
  }

  /** The first of the user's live holds in the order of their deadlines. */
  function OldestActive(holds: seq<Hold>, user: nat, now: int): (r: Option<nat>)
    ensures r.Some? ==> r.value < |holds| && Usable(holds[r.value], user, now)
    ensures r.Some? ==> forall j | 0 <= j < |holds| && Usable(holds[j], user, now) ::
            holds[r.value].expiresAt <= holds[j].expiresAt
    ensures r.None? ==> forall j | 0 <= j < |holds| :: !Usable(holds[j], user, now)
  {
    if holds == [] then None
    else
      var n := |holds| - 1;
      var earlier := OldestActive(holds[..n], user, now);
      if Usable(holds[n], user, now) && (earlier.None? || holds[n].expiresAt < holds[earlier.value].expiresAt)
      then Some(n) else earlier
  }

  /** createPaymentIntent.  It inserts one booking per room under one booking code; the code is unique, so a
      hold of several room entries fails and rolls back, as does a refusal by the provider. */
  function CreatePaymentIntent(s: State, user: nat, providerAccepts: bool): (State, Reply) {
    match OldestActive(s.holds, user, s.now)
    case None => (s, Refused(NoActiveHold))
    case Some(i) =>
      var h := s.holds[i];
      if h.rooms == [] then (s, Refused(HoldHasNoRooms))
      else if h.total <= 0 then (s, Refused(InvalidHoldAmount))
      else if h.checkIn >= h.checkOut || |h.rooms| > 1 || !providerAccepts then (s, Refused(PaymentCreationFailed))
      else (Convert(s, i, BookingFromIntent(s, i)), Accepted(|s.bookings|))
  }

  function BookingFromIntent(s: State, i: nat): Booking
    requires i < |s.holds|
  {
    var h := s.holds[i];
    Booking(h.user, h.hotel, i, FromPaymentIntent, h.rooms, h.checkIn, h.checkOut, 0, h.total, 0,
            PendingPayment, s.now + WINDOW_MS, None, TxPending, false, false)
  }

  // ---- Bookings ----

  predicate BookingDue(b: Booking, now: int) {
    b.status.PendingPayment? && b.expiresAt <= now
  }

  /** releaseRooms on behalf of a booking, with its own checks; the caller names the rooms and the dates. */
  function ReleaseFor(s: State, i: nat, rooms: seq<RoomQty>, checkIn: int, checkOut: int): Result<State>
    requires i < |s.bookings|
  {
    if rooms == [] then Err(InvalidRooms)
    else if checkIn >= checkOut then Err(InvalidDateRange)
    else Ok(s.(rows := Adjusted(s.rows, Booked, Down, rooms, checkIn, checkOut),
               bookings := s.bookings[i := s.bookings[i].(roomsReturned := true)],
               log := s.log + [BookingReturn(i)]))
  }

  /** The rooms and dates of the booking itself. */
  function ReturnRooms(s: State, i: nat): Result<State>
    requires i < |s.bookings|
  {
    var b := s.bookings[i];
    ReleaseFor(s, i, b.rooms, b.checkIn, b.checkOut)
  }

  /** expireBookingIfDue: again re-checked under the row lock.  A booking without rooms expires all the same. */
  function ExpireBooking(s: State, i: nat): (State, Reply) {
    if i >= |s.bookings| || !BookingDue(s.bookings[i], s.now) then (s, Unchanged)
    else
      var b := s.bookings[i];
      match if b.rooms == [] then Ok(s.(bookings := s.bookings[i := b.(roomsReturned := true)])) else ReturnRooms(s, i)
      case Err(e) => (s, Refused(e))
      case Ok(returned) =>
        var tx := if b.tx.TxPending? || b.tx.TxProcessing? then TxCancelled else b.tx;
        var expired := returned.bookings[i].(status := BookingExpired, cancelledAt := Some(s.now), tx := tx);
        (returned.(bookings := returned.bookings[i := expired]), Accepted(i))
  }

  /** handlePaymentSucceeded for a booking found by its code.  `refunded` is the provider's answer to the
      refund of a payment that arrives after expiry. */
  function HandlePaymentSucceeded(cfg: Config, s: State, i: nat, refunded: bool): (State, Reply) {
    if i >= |s.bookings| then (s, Refused(BookingNotFound))
    else
      var b := s.bookings[i];
      if b.tx.TxCompleted? then (s, Unchanged)
      else if b.status.BookingExpired? then
        (s.(bookings := s.bookings[i := b.(tx := if refunded then TxRefunded else TxProcessing, charged := true)],
            late := s.late + [LatePayment(i, if b.total > 0 then b.total else 0, refunded)]),
         Accepted(i))
      else
        match Ledger.Post(s.books, Ledger.PaymentSucceeded(i), Ledger.PaymentLines(b.total, b.hotel, cfg.feeRate))
        case Err(e) => (s, Refused(e))
        case Ok(books) =>
          var confirmed := b.(tx := TxCompleted, charged := true, status := Confirmed);
          (s.(books := books, bookings := s.bookings[i := confirmed]), Accepted(i))
  }

  /** handlePaymentFailed overwrites the booking's status, whatever it was. */
  function HandlePaymentFailed(s: State, i: nat): (State, Reply) {
    if i >= |s.bookings| then (s, Refused(BookingNotFound))
    else
      var b := s.bookings[i];
      if b.tx.TxFailed? then (s, Unchanged)
      else (s.(bookings := s.bookings[i := b.(tx := TxFailed, status := PaymentFailed)]), Accepted(i))
  }

  /** `RefundDeclined`: the provider answers that the refund failed or was cancelled. */
  datatype ProviderRefund = RefundDone | RefundPending | RefundDeclined | RefundThrows

  /** processRefund: record, provider, transaction state, ledger.  Any failure is logged by the caller, and one
      after the provider has paid still marks the record failed. */
  function ProcessRefund(cfg: Config, s: State, i: nat, cents: int, provider: ProviderRefund): State
    requires i < |s.bookings|
  {
    var b := s.bookings[i];
    var amount := if cents <= b.total then cents else b.total;
    if !b.charged then s
    else
      match provider
      case RefundThrows => s.(refunds := s.refunds + [RefundRow(i, b.hotel, amount, RefundFailed)])
      case RefundPending =>
        s.(refunds := s.refunds + [RefundRow(i, b.hotel, amount, RefundOpen)],
           bookings := s.bookings[i := b.(tx := TxProcessing)])
      case RefundDeclined =>
        s.(refunds := s.refunds + [RefundRow(i, b.hotel, amount, RefundFailed)],
           bookings := s.bookings[i := b.(tx := TxProcessing)])
      case RefundDone =>
        var key, lines := Ledger.RefundSucceeded(|s.refunds|), Ledger.RefundLines(amount, b.hotel, cfg.feeRate);
        var state := if Ledger.Post(s.books, key, lines).Ok? then Refunded else RefundFailed;
        s.(refunds := s.refunds + [RefundRow(i, b.hotel, amount, state)],
           bookings := s.bookings[i := b.(tx := if amount >= b.total then TxRefunded else TxPartiallyRefunded)],
           books := Ledger.Apply(s.books, key, lines))
  }

  /** cancelBooking.  It never gives the rooms back. */
  function CancelBooking(cfg: Config, s: State, i: nat, user: nat,
                         refundCents: Option<int>, provider: ProviderRefund): (State, Reply)
  {
    if i >= |s.bookings| || s.bookings[i].buyer != user then (s, Refused(BookingNotFound))
    else if s.bookings[i].status.Cancelled? then (s, Refused(AlreadyCancelled))
    else if s.bookings[i].status.StayCompleted? then (s, Refused(CannotCancelCompleted))
    else
      var after := if refundCents.Some? && refundCents.value > 0
          then ProcessRefund(cfg, s, i, refundCents.value, provider) else s;
      (after.(bookings := after.bookings[i := after.bookings[i].(status := Cancelled)]), Accepted(i))
  }

  /** The rooms and dates that a refund notification carries; without rooms or dates the list is empty. */
  datatype Notice = Notice(rooms: seq<RoomQty>, checkIn: int, checkOut: int)

  /** The notice takes from every row what the booking has there. */
  ghost predicate NoticeMatches(rows: Table, notice: Notice, b: Booking) {
    forall c | c in rows :: Claim(notice.rooms, notice.checkIn, notice.checkOut, c)
        == Claim(b.rooms, b.checkIn, b.checkOut, c)
  }

  /** handleRefundSucceeded for the charge of a booking.  It gives back the rooms of the notification, without
      asking whose they are or whether that has happened before. */
  function HandleRefundSucceeded(s: State, i: nat, notice: Notice): (State, Reply) {
    if i >= |s.bookings| || !s.bookings[i].charged then (s, Refused(TransactionNotFound))
    else
      var cancelled := s.(bookings := s.bookings[i := s.bookings[i].(status := Cancelled)]);
      if notice.rooms == [] then (cancelled, Accepted(i))
      else
        match ReleaseFor(cancelled, i, notice.rooms, notice.checkIn, notice.checkOut)
        case Err(e) => (s, Refused(e))
        case Ok(returned) => (returned, Accepted(i))
  }

  /** updateStatusByDates for one booking of the user. */
  function AdvancedStay(b: Booking, user: nat, today: int): Booking {
    if b.buyer != user || !(b.status.Confirmed? || b.status.CheckedIn?) then b
    else if b.checkIn <= today <= b.checkOut then b.(status := CheckedIn)
    else if today > b.checkOut then b.(status := StayCompleted)
    else b
  }

  function AdvanceStays(s: State, user: nat, today: int): State {
    s.(bookings := seq(|s.bookings|, i requires 0 <= i < |s.bookings| => AdvancedStay(s.bookings[i], user, today)))
  }

  // ---- The hotel's own updates ----

  /** roomInventoryRepository.update on one row. */
  function UpdateRow(s: State, c: Cell, u: RowUpdate): State {
    if c in s.rows then s.(rows := s.rows[c := Updated(s.rows[c], u)]) else s
  }

  /** The update leaves the booked counter alone and the total no lower than what is taken. */
  predicate SafeUpdate(row: Row, u: RowUpdate) {
    && (u.booked.Some? ==> u.booked.value == row.booked)
    && (u.total.Some? ==> row.held + row.booked <= u.total.value)
  }

  // ---- Runs ----

  datatype Event =
    | Tick(ms: nat)
    | OnCreateHold(user: nat, hotel: nat, rooms: seq<RoomQty>, checkIn: int, checkOut: int)
    | OnReleaseHold(hold: nat, owner: nat)
    | OnExpireHold(staleHold: nat)
    | OnBeginBooking(id: KeyId, body: StableJson.Json, chosenHold: nat)
    | OnFinishBooking(pending: KeyId)
    | OnPaymentIntent(payer: nat, providerAccepts: bool)
    | OnExpireBooking(staleBooking: nat)
    | OnPaymentSucceeded(paid: nat, refunded: bool)
    | OnPaymentFailed(failed: nat)
    | OnCancel(cancelled: nat, byUser: nat, refundCents: Option<int>, provider: ProviderRefund)
    | OnRefundSucceeded(refundedBooking: nat, notice: Notice)
    | OnAdvanceStays(guest: nat, today: int)
    | OnUpdateRow(cell: Cell, update: RowUpdate)

  function Step(cfg: Config, s: State, e: Event): State {
    match e
    case Tick(ms) => s.(now := s.now + ms)
    case OnCreateHold(user, hotel, rooms, checkIn, checkOut) =>
        CreateHold(cfg, s, user, hotel, rooms, checkIn, checkOut).0
    case OnReleaseHold(i, user) => ReleaseHold(s, i, user, Released).0
    case OnExpireHold(i) => ExpireHold(s, i).0
    case OnBeginBooking(id, body, hold) => BeginBooking(s, id, body, hold).0
    case OnFinishBooking(id) => FinishBooking(cfg, s, id).0
    case OnPaymentIntent(user, accepts) => CreatePaymentIntent(s, user, accepts).0
    case OnExpireBooking(i) => ExpireBooking(s, i).0
    case OnPaymentSucceeded(i, refunded) => HandlePaymentSucceeded(cfg, s, i, refunded).0
    case OnPaymentFailed(i) => HandlePaymentFailed(s, i).0
    case OnCancel(i, user, cents, provider) => CancelBooking(cfg, s, i, user, cents, provider).0
    case OnRefundSucceeded(i, notice) => HandleRefundSucceeded(s, i, notice).0
    case OnAdvanceStays(user, today) => AdvanceStays(s, user, today)
    case OnUpdateRow(c, u) => UpdateRow(s, c, u)
  }

  function Run(cfg: Config, s: State, events: seq<Event>): State {
    if events == [] then s
    else Step(cfg, Run(cfg, s, events[..|events| - 1]), events[|events| - 1])
  }

  lemma RunSnoc(cfg: Config, s: State, events: seq<Event>, e: Event)
    ensures Run(cfg, s, events + [e]) == Step(cfg, Run(cfg, s, events), e)
  {
    assert (events + [e])[..|events|] == events;
  }

  lemma RunOfOne(cfg: Config, s: State, e: Event)
    ensures Run(cfg, s, [e]) == Step(cfg, s, e)
  {
    assert [e][..0] == [];
  }

  lemma RunOfTwo(cfg: Config, s: State, a: Event, b: Event)
    ensures Run(cfg, s, [a, b]) == Step(cfg, Step(cfg, s, a), b)
  {
    RunOfOne(cfg, s, a);
    RunSnoc(cfg, s, [a], b);
    assert [a] + [b] == [a, b];
  }

  lemma {:induction false} RunAppend(cfg: Config, s: State, first: seq<Event>, rest: seq<Event>)
    ensures Run(cfg, s, first + rest) == Run(cfg, Run(cfg, s, first), rest)
  {
    if rest == [] {
      assert first + rest == first;
    } else {
      var n := |rest| - 1;
      RunAppend(cfg, s, first, rest[..n]);
      assert (first + rest)[..|first + rest| - 1] == first + rest[..n];
    }
  }

  /** What the engine leaves to its environment: a hold request names each room once, a refund notification
      asks for rooms only while its booking's have not been given back and then for those, and the hotel's own
      updates do not touch what is taken. */
  ghost predicate Orderly(s: State, e: Event) {
    match e
    case OnCreateHold(_, _, rooms, _, _) => DistinctRooms(rooms)
    case OnRefundSucceeded(i, notice) =>
      notice.rooms != [] && notice.checkIn < notice.checkOut && i < |s.bookings| && s.bookings[i].charged ==>
        !s.bookings[i].roomsReturned && NoticeMatches(s.rows, notice, s.bookings[i])
    case OnUpdateRow(c, u) => c in s.rows ==> SafeUpdate(s.rows[c], u)
    case _ => true
  }

  ghost predicate OrderlyRun(cfg: Config, s: State, events: seq<Event>) {
    events != [] ==>
      && OrderlyRun(cfg, s, events[..|events| - 1])
      && Orderly(Run(cfg, s, events[..|events| - 1]), events[|events| - 1])
  }

  /** A table at rest, with nothing held or booked and nothing recorded. */
  function Start(now: int, rows: Table): State {
    State(now, map c | c in rows :: rows[c].(held := 0, booked := 0), [], [], map[], [], [], [], [])
  }
}
