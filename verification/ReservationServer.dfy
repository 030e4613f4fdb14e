/**
 The services over their mutable tables.  Every method is proved against the step of the state machine that
 it implements, so what is proved about runs of steps holds of any sequence of calls.
 */
module ReservationServer {
  import opened Common
  import opened Inventory
  import opened Reservations
  import Pricing
  import Ledger
  import StableJson
  import ExpiryScans

  class Server {
    const cfg: Config
    const inventory: RoomInventory
    const ledger: Ledger.LedgerStore
    var now: int
    var holds: seq<Hold>
    var bookings: seq<Booking>
    var keys: map<KeyId, KeyRecord>
    var refunds: seq<RefundRow>
    ghost var log: seq<Return>
    ghost var late: seq<LatePayment>

    constructor (cfg: Config, now: int, rows: Table)
      requires forall c | c in rows :: rows[c].held == 0 && rows[c].booked == 0
      ensures Valid() && this.cfg == cfg && fresh(inventory) && fresh(ledger)
      ensures Current() == Start(now, rows)
    {
      this.cfg, this.now := cfg, now;
      inventory := new RoomInventory(rows);
      ledger := new Ledger.LedgerStore();
      holds, bookings, keys, refunds, log, late := [], [], map[], [], [], [];
      new;
      assert inventory.rows == Start(now, rows).rows;
    }

    ghost predicate Valid()
      reads this, ledger
    {
      ledger.Valid()
    }

    /** The state of all tables. */
    ghost function Current(): State
      reads this, inventory, ledger
    {
      State(now, inventory.rows, holds, bookings, keys, ledger.entries, refunds, log, late)
    }

    method CreateHold(user: nat, hotel: nat, rooms: seq<RoomQty>, checkIn: int, checkOut: int) returns (reply: Reply)
      requires Valid()
      modifies this`holds, inventory
      ensures Valid()
      ensures (Current(), reply) == Reservations.CreateHold(cfg, old(Current()), user, hotel, rooms, checkIn, checkOut)
    {
      if rooms == [] {
        return Refused(InvalidRooms);
      }
      if checkIn >= checkOut {
        return Refused(InvalidDateRange);
      }
      var available := inventory.CheckAvailabilityForHold(rooms, checkIn, checkOut);
      if !available {
        return Refused(RoomsNotAvailable);
      }
      var quote := Pricing.ComputeQuote(inventory.rows, rooms, checkIn, checkOut, cfg.rates);
      assert quote.Ok?;
      var expiresAt := now + WINDOW_MS;
      holds := holds + [Hold(user, hotel, rooms, checkIn, checkOut, quote.value.total, Active, expiresAt, None)];
      inventory.Batch(rooms, checkIn, checkOut, Held, Up);
      reply := Accepted(|holds| - 1);
    }

    /** releaseHold, in the caller's transaction or its own. */
    method ReleaseHold(i: nat, user: nat, status: HoldStatus) returns (reply: Reply)
      requires Valid()
      modifies this`holds, this`log, inventory
      ensures Valid()
      ensures (Current(), reply) == Reservations.ReleaseHold(old(Current()), i, user, status)
    {
      if i >= |holds| {
        return Refused(HoldNotFound);
      }
      var hold := holds[i];
      if hold.user != user {
        return Refused(Forbidden);
      }
      if !hold.status.Active? {
        return Refused(HoldNotActive);
      }
      if hold.rooms == [] {
        return Refused(InvalidRooms);
      }
      inventory.Batch(hold.rooms, hold.checkIn, hold.checkOut, Held, Down);
      log := log + [HoldReturn(i)];
      holds := holds[i := hold.(status := status, releasedAt := Some(now))];
      reply := Accepted(i);
    }

    method ExpireHoldIfDue(i: nat) returns (reply: Reply)
      requires Valid()
      modifies this`holds, this`log, inventory
      ensures Valid()
      ensures (Current(), reply) == Reservations.ExpireHold(old(Current()), i)
    {
      if i >= |holds| || !holds[i].status.Active? || holds[i].expiresAt > now {
        return Unchanged;
      }
      var hold := holds[i];
      if hold.rooms == [] {
        return Refused(InvalidRooms);
      }
      inventory.Batch(hold.rooms, hold.checkIn, hold.checkOut, Held, Down);
      log := log + [HoldReturn(i)];
      holds := holds[i := hold.(status := Expired, releasedAt := Some(now))];
      reply := Accepted(i);
    }

    /** releaseExpiredHolds: one page of overdue holds, then the loop. */
    method ReleaseExpiredHolds(limit: nat) returns (ghost page: seq<nat>, processed: nat, released: nat)
      requires Valid()
      modifies this`holds, this`log, inventory
      ensures Valid()
      ensures ExpiryScans.IsPage(ExpiryScans.DueHolds(old(Current())), page, limit)
      ensures Current() == ExpiryScans.ScanHolds(old(Current()), page)
      ensures processed == |page| && released == |log| - |old(log)|
    {
      var expired := ExpiryScans.FindOldest(map i: nat | i < |holds| && HoldDue(holds[i], now) ::
                                            holds[i].expiresAt, limit);
      page := expired;
      released := 0;
      for k := 0 to |expired|
        invariant Valid()
        invariant Current() == ExpiryScans.ScanHolds(old(Current()), expired[..k])
        invariant released == |log| - |old(log)|
      {
        ExpiryScans.ScanHoldsNext(old(Current()), expired, k);
        var outcome := ExpireHoldIfDue(expired[k]);
        if outcome.Accepted? {
          released := released + 1;
        }
      }
      assert expired[..|expired|] == expired;
      processed := |expired|;
    }

    /** reserveRooms: validation and the batch, without any availability check. */
    method ReserveRooms(rooms: seq<RoomQty>, checkIn: int, checkOut: int) returns (ok: bool)
      modifies inventory
      ensures ok <==> rooms != [] && checkIn < checkOut
      ensures inventory.rows == if ok then Adjusted(old(inventory.rows), Booked, Up, rooms, checkIn, checkOut)
              else old(inventory.rows)
    {
      if rooms == [] || checkIn >= checkOut {
        return false;
      }
      inventory.Batch(rooms, checkIn, checkOut, Booked, Up);
      ok := true;
    }

    /** createBookingFromHold in one go: the record commits first, then the transaction runs. */
    method CreateBookingFromHold(id: KeyId, body: StableJson.Json, hold: nat) returns (reply: Reply)
      requires Valid()
      modifies this, inventory
      ensures Valid()
      ensures var (begun, first) := BeginBooking(old(Current()), id, body, hold);
              (Current(), reply) == if first.Unchanged? then FinishBooking(cfg, begun, id) else (begun, first)
    {
      if id.key == "" {
        return Refused(KeyRequired);
      }
      var hash := StableJson.Stringify(body);
      if id in keys {
        if keys[id].hash != hash {
          return Refused(KeyReused);
        }
        match keys[id].status {
          case Done(response) => return Replayed(response);
          case _ => return Refused(RequestInProgress);
        }
      }
      keys := keys[id := KeyRecord(hash, hold, InProgress)];
      reply := BookInTransaction(hold, id);
      if reply.Accepted? {
        keys := keys[id := keys[id].(status := Done(Response(reply.id, bookings[reply.id].total)))];
      } else {
        keys := keys[id := keys[id].(status := FailedKey)];
      }
    }

    method BookInTransaction(i: nat, id: KeyId) returns (reply: Reply)
      requires Valid()
      modifies this`holds, this`bookings, this`log, inventory
      ensures Valid()
      ensures (Current(), reply) == BookHold(cfg, old(Current()), i, id)
    {
      if i >= |holds| {
        return Refused(HoldNotFound);
      }
      var hold := holds[i];
      if hold.user != id.user {
        return Refused(Forbidden);
      }
      if !hold.status.Active? {
        return Refused(HoldNotActive);
      }
      if hold.expiresAt <= now {
        return Refused(HoldExpired);
      }
      var quote := Pricing.ComputeQuote(inventory.rows, hold.rooms, hold.checkIn, hold.checkOut, cfg.rates);
      if quote.Err? {
        return Refused(quote.error);
      }
      var released := ReleaseHold(i, id.user, HoldStatus.Completed);
      var reserved := ReserveRooms(hold.rooms, hold.checkIn, hold.checkOut);
      var booking := Booking(
        id.user, hold.hotel, i, FromRequest(id), QuotedEntries(quote.value.rooms), hold.checkIn, hold.checkOut,
        quote.value.subtotal, quote.value.total, quote.value.commission,
        PendingPayment, now + WINDOW_MS, None, TxPending, false, false);
      assert booking.rooms == Pricing.QuotedRooms(hold.rooms);
      bookings := bookings + [booking];
      reply := Accepted(|bookings| - 1);
    }

    /** createPaymentIntent.  Work done before a failure is rolled back. */
    method CreatePaymentIntent(user: nat, providerAccepts: bool) returns (reply: Reply)
      requires Valid()
      modifies this`holds, this`bookings, this`log, inventory
      ensures Valid()
      ensures (Current(), reply) == Reservations.CreatePaymentIntent(old(Current()), user, providerAccepts)
    {
      var found := OldestActive(holds, user, now);
      if found.None? {
        return Refused(NoActiveHold);
      }
      var i := found.value;
      var hold := holds[i];
      if hold.rooms == [] {
        return Refused(HoldHasNoRooms);
      }
      if hold.total <= 0 {
        return Refused(InvalidHoldAmount);
      }
      var savedRows, savedHolds, savedBookings := inventory.rows, holds, bookings;
      ghost var savedLog := log;
      var released := ReleaseHold(i, user, HoldStatus.Completed);
      var reserved := ReserveRooms(hold.rooms, hold.checkIn, hold.checkOut);
      // One booking per room, all under one booking code: the second insert violates the unique index.
      var inserted, unique := 0, true;
      while reserved && unique && inserted < |hold.rooms|
        invariant 0 <= inserted <= 1 && inserted <= |hold.rooms| && (!unique ==> |hold.rooms| > 1)
        invariant bookings == savedBookings
                  + (if inserted == 0 then [] else [IntentBooking(user, hold, i, hold.rooms[0], now)])
        modifies this`bookings
        decreases unique, |hold.rooms| - inserted
      {
        if inserted > 0 {
          unique := false;
        } else {
          bookings := bookings + [IntentBooking(user, hold, i, hold.rooms[inserted], now)];
          inserted := inserted + 1;
        }
      }
      if reserved && unique && providerAccepts {
        assert [hold.rooms[0]] == hold.rooms;
        assert bookings == old(bookings) + [BookingFromIntent(old(Current()), i)];
        return Accepted(|bookings| - 1);
      }
      inventory.rows, holds, bookings := savedRows, savedHolds, savedBookings;
      log := savedLog;
      reply := Refused(PaymentCreationFailed);
    }

    method UpdateRow(room: nat, day: int, u: RowUpdate)
      requires Valid()
      modifies inventory
      ensures Valid()
      ensures Current() == Reservations.UpdateRow(old(Current()), Cell(room, day), u)
    {
      inventory.Update(room, day, u);
      assert inventory.rows == Reservations.UpdateRow(old(Current()), Cell(room, day), u).rows;
    }

    method ExpireBookingIfDue(i: nat) returns (reply: Reply)
      requires Valid()
      modifies this`bookings, this`log, inventory
      ensures Valid()
      ensures (Current(), reply) == Reservations.ExpireBooking(old(Current()), i)
    {
      if i >= |bookings| || !bookings[i].status.PendingPayment? || bookings[i].expiresAt > now {
        return Unchanged;
      }
      var expiring := bookings[i];
      if expiring.rooms != [] {
        var error := ReleaseRooms(i, expiring.rooms, expiring.checkIn, expiring.checkOut);
        if error.Some? {
          return Refused(error.value);
        }
      } else {
        bookings := bookings[i := expiring.(roomsReturned := true)];
      }
      ghost var returned := bookings;
      var booking := bookings[i];
      bookings := bookings[i := booking.(status := BookingExpired, cancelledAt := Some(now))];
      if booking.tx.TxPending? || booking.tx.TxProcessing? {
        bookings := bookings[i := bookings[i].(tx := TxCancelled)];
      }
      assert bookings == returned[i := bookings[i]];
      reply := Accepted(i);
    }

    /** releaseRooms on behalf of a booking; an error leaves everything as it was. */
    method ReleaseRooms(i: nat, rooms: seq<RoomQty>, checkIn: int, checkOut: int) returns (error: Option<Error>)
      requires Valid() && i < |bookings|
      modifies this`bookings, this`log, inventory
      ensures Valid()
      ensures match ReleaseFor(old(Current()), i, rooms, checkIn, checkOut)
              case Ok(after) => error.None? && Current() == after
              case Err(e) => error == Some(e) && Current() == old(Current())
    {
      if rooms == [] {
        return Some(InvalidRooms);
      }
      if checkIn >= checkOut {
        return Some(InvalidDateRange);
      }
      inventory.Batch(rooms, checkIn, checkOut, Booked, Down);
      log := log + [BookingReturn(i)];
      bookings := bookings[i := bookings[i].(roomsReturned := true)];
      error := None;
    }

    method ExpirePendingBookings(limit: nat) returns (ghost page: seq<nat>, processed: nat, released: nat)
      requires Valid()
      modifies this`bookings, this`log, inventory
      ensures Valid()
      ensures ExpiryScans.IsPage(ExpiryScans.DueBookings(old(Current())), page, limit)
      ensures Current() == ExpiryScans.ScanBookings(old(Current()), page)
      ensures processed == |page| && released == ExpiryScans.BookingsExpired(old(Current()), page)
    {
      var expired := ExpiryScans.FindOldest(map i: nat | i < |bookings| && BookingDue(bookings[i], now) ::
                                            bookings[i].expiresAt, limit);
      page := expired;
      released := 0;
      for k := 0 to |expired|
        invariant Valid()
        invariant Current() == ExpiryScans.ScanBookings(old(Current()), expired[..k])
        invariant released == ExpiryScans.BookingsExpired(old(Current()), expired[..k])
      {
        ExpiryScans.ScanBookingsNext(old(Current()), expired, k);
        var outcome := ExpireBookingIfDue(expired[k]);
        if outcome.Accepted? {
          released := released + 1;
        }
      }
      assert expired[..|expired|] == expired;
      processed := |expired|;
    }

    method HandlePaymentSucceeded(i: nat, refunded: bool) returns (reply: Reply)
      requires Valid()
      modifies this`bookings, this`late, ledger
      ensures Valid()
      ensures (Current(), reply) == Reservations.HandlePaymentSucceeded(cfg, old(Current()), i, refunded)
    {
      if i >= |bookings| {
        return Refused(BookingNotFound);
      }
      var booking := bookings[i];
      if booking.tx.TxCompleted? {
        return Unchanged;
      }
      if booking.status.BookingExpired? {
        bookings := bookings[i := booking.(tx := if refunded then TxRefunded else TxProcessing, charged := true)];
        late := late + [LatePayment(i, if booking.total > 0 then booking.total else 0, refunded)];
        return Accepted(i);
      }
      var savedBookings := bookings;
      bookings := bookings[i := booking.(tx := TxCompleted, charged := true)];
      bookings := bookings[i := bookings[i].(status := Confirmed)];
      assert bookings == savedBookings[i := bookings[i]];
      var posted := ledger.PostBalancedEntries(Ledger.PaymentSucceeded(i),
                                               Ledger.PaymentLines(booking.total, booking.hotel, cfg.feeRate));
      if !posted {
        bookings := savedBookings;
        return Refused(NotBalanced);
      }
      reply := Accepted(i);
    }

    method HandlePaymentFailed(i: nat) returns (reply: Reply)
      requires Valid()
      modifies this`bookings
      ensures Valid()
      ensures (Current(), reply) == Reservations.HandlePaymentFailed(old(Current()), i)
    {
      if i >= |bookings| {
        return Refused(BookingNotFound);
      }
      if bookings[i].tx.TxFailed? {
        return Unchanged;
      }
      bookings := bookings[i := bookings[i].(tx := TxFailed)];
      bookings := bookings[i := bookings[i].(status := PaymentFailed)];
      assert bookings == old(bookings)[i := bookings[i]];
      reply := Accepted(i);
    }

    method CancelBooking(i: nat, user: nat, refundCents: Option<int>, provider: ProviderRefund) returns (reply: Reply)
      requires Valid()
      modifies this`bookings, this`refunds, ledger
      ensures Valid()
      ensures (Current(), reply) == Reservations.CancelBooking(cfg, old(Current()), i, user, refundCents, provider)
    {
      if i >= |bookings| || bookings[i].buyer != user {
        return Refused(BookingNotFound);
      }
      if bookings[i].status.Cancelled? {
        return Refused(AlreadyCancelled);
      }
      if bookings[i].status.StayCompleted? {
        return Refused(CannotCancelCompleted);
      }
      if refundCents.Some? && refundCents.value > 0 {
        ProcessRefund(i, refundCents.value, provider);
      }
      bookings := bookings[i := bookings[i].(status := Cancelled)];
      reply := Accepted(i);
    }

    method ProcessRefund(i: nat, cents: int, provider: ProviderRefund)
      requires Valid() && i < |bookings|
      modifies this`bookings, this`refunds, ledger
      ensures Valid()
      ensures Current() == Reservations.ProcessRefund(cfg, old(Current()), i, cents, provider)
    {
      var booking := bookings[i];
      var amount := if cents <= booking.total then cents else booking.total;
      if !booking.charged {
        return;
      }
      var refund := |refunds|;
      refunds := refunds + [RefundRow(i, booking.hotel, amount, RefundOpen)];
      var outcome := RefundOpen;
      match provider {
        case RefundThrows =>
          outcome := RefundFailed;
        case RefundPending =>
          bookings := bookings[i := booking.(tx := TxProcessing)];
        case RefundDeclined =>
          bookings := bookings[i := booking.(tx := TxProcessing)];
          outcome := RefundFailed;
        case RefundDone =>
          bookings := bookings[i := booking.(tx := if amount >= booking.total then TxRefunded
                                             else TxPartiallyRefunded)];
          var posted := ledger.PostBalancedEntries(Ledger.RefundSucceeded(refund),
                                                   Ledger.RefundLines(amount, booking.hotel, cfg.feeRate));
          outcome := if posted then Refunded else RefundFailed;
      }
      refunds := refunds[refund := RefundRow(i, booking.hotel, amount, outcome)];
      assert refunds == old(refunds) + [RefundRow(i, booking.hotel, amount, outcome)];
    }

    method HandleRefundSucceeded(i: nat, notice: Notice) returns (reply: Reply)
      requires Valid()
      modifies this`bookings, this`log, inventory
      ensures Valid()
      ensures (Current(), reply) == Reservations.HandleRefundSucceeded(old(Current()), i, notice)
    {
      if i >= |bookings| || !bookings[i].charged {
        return Refused(TransactionNotFound);
      }
      var savedBookings := bookings;
      bookings := bookings[i := bookings[i].(status := Cancelled)];
      if notice.rooms != [] {
        var error := ReleaseRooms(i, notice.rooms, notice.checkIn, notice.checkOut);
        if error.Some? {
          bookings := savedBookings;
          return Refused(error.value);
        }
      }
      reply := Accepted(i);
    }
  }

  function IntentBooking(user: nat, hold: Hold, i: nat, room: RoomQty, now: int): Booking {
    Booking(user, hold.hotel, i, FromPaymentIntent, [room], hold.checkIn, hold.checkOut, 0, hold.total, 0,
            PendingPayment, now + WINDOW_MS, None, TxPending, false, false)
  }

  /** The room entries of a quote, as bookingRooms stores them. */
  function QuotedEntries(quotes: seq<Pricing.RoomQuote>): seq<RoomQty> {
    seq(|quotes|, i requires 0 <= i < |quotes| => RoomQty(quotes[i].room, quotes[i].quantity))
  }
}
