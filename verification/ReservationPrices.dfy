/** What a guest is charged, against what was quoted when the hold was made. */
module ReservationPrices {
  import opened Common
  import opened Inventory
  import opened Money
  import opened Reservations
  import ReservationIdempotency
  import ReservationLaws
  import ReservationPayments
  import Pricing
  import Ledger
  import Scenarios

  /** The total that a quote for the rooms and nights of a hold shows at the prices of a table. */
  function QuotedTotal(cfg: Config, rows: Table, h: Hold): int {
    Pricing.Total(Pricing.Subtotal(rows, Pricing.QuotedRooms(h.rooms), h.checkIn, h.checkOut), cfg.rates)
  }

  /** The event changes no price on the rooms and nights of the hold. */
  predicate Untouched(e: Event, h: Hold) {
    e.OnUpdateRow? && e.update.price.Some? ==> !Selected(h.rooms, h.checkIn, h.checkOut, e.cell)
  }

  // ---- A quote depends on the prices of its own cells only ----

  ghost predicate SamePrices(a: Table, b: Table, rooms: seq<RoomQty>, checkIn: int, checkOut: int) {
    forall i, day | 0 <= i < |rooms| && checkIn <= day < checkOut ::
      Pricing.PriceAt(a, rooms[i].room, day) == Pricing.PriceAt(b, rooms[i].room, day)
  }

  lemma {:induction false} RoomSubtotalSame(a: Table, b: Table, entry: RoomQty, checkIn: int, checkOut: int)
    requires forall day | checkIn <= day < checkOut ::
             Pricing.PriceAt(a, entry.room, day) == Pricing.PriceAt(b, entry.room, day)
    ensures Pricing.RoomSubtotal(a, entry, checkIn, checkOut) == Pricing.RoomSubtotal(b, entry, checkIn, checkOut)
    decreases checkOut - checkIn
  {
    if checkIn < checkOut {
      RoomSubtotalSame(a, b, entry, checkIn, checkOut - 1);
    }
  }

  lemma {:induction false} SubtotalSame(a: Table, b: Table, rooms: seq<RoomQty>, checkIn: int, checkOut: int)
    requires SamePrices(a, b, rooms, checkIn, checkOut)
    ensures Pricing.Subtotal(a, rooms, checkIn, checkOut) == Pricing.Subtotal(b, rooms, checkIn, checkOut)
  {
    if rooms != [] {
      SubtotalSame(a, b, rooms[..|rooms| - 1], checkIn, checkOut);
      RoomSubtotalSame(a, b, rooms[|rooms| - 1], checkIn, checkOut);
    }
  }

  lemma QuotedTotalSame(cfg: Config, a: Table, b: Table, h: Hold)
    requires SamePrices(a, b, h.rooms, h.checkIn, h.checkOut)
    ensures QuotedTotal(cfg, a, h) == QuotedTotal(cfg, b, h)
  {
    SubtotalSame(a, b, Pricing.QuotedRooms(h.rooms), h.checkIn, h.checkOut);
  }

  // ---- What one event does to prices, holds and bookings ----

  ghost predicate SameTags(a: Table, b: Table) {
    a.Keys == b.Keys && forall c | c in a :: b[c].price == a[c].price
  }

  lemma HoldEventKeepsTags(cfg: Config, s: State, e: Event)
    requires e.Tick? || e.OnCreateHold? || e.OnReleaseHold? || e.OnExpireHold?
    ensures SameTags(s.rows, Step(cfg, s, e).rows)
  {
  }

  lemma ReturnEventKeepsTags(cfg: Config, s: State, e: Event)
    requires e.OnExpireBooking? || e.OnRefundSucceeded?
    ensures SameTags(s.rows, Step(cfg, s, e).rows)
  {
  }

  lemma BookingEventKeepsTags(cfg: Config, s: State, e: Event)
    requires e.OnBeginBooking? || e.OnFinishBooking? || e.OnPaymentIntent?
    ensures SameTags(s.rows, Step(cfg, s, e).rows)
  {
    forall i: nat, b | i < |s.holds| ensures SameTags(s.rows, Convert(s, i, b).rows) {
      ConvertKeepsTags(s, i, b);
    }
  }

  lemma ConvertKeepsTags(s: State, i: nat, b: Booking)
    requires i < |s.holds|
    ensures SameTags(s.rows, Convert(s, i, b).rows)
  {
  }

  lemma PaymentEventKeepsTags(cfg: Config, s: State, e: Event)
    requires e.OnPaymentSucceeded? || e.OnPaymentFailed? || e.OnCancel? || e.OnAdvanceStays?
    ensures SameTags(s.rows, Step(cfg, s, e).rows)
  {
    match e {
      case OnPaymentSucceeded(i, refunded) => ReservationLaws.PaymentRelabels(cfg, s, i, refunded);
      case OnPaymentFailed(i) => ReservationLaws.PaymentFailureRelabels(s, i);
      case OnCancel(i, user, cents, provider) => ReservationLaws.CancelRelabels(cfg, s, i, user, cents, provider);
      case OnAdvanceStays(user, today) => ReservationLaws.AdvanceStaysRelabels(s, user, today);
    }
  }

  lemma PricesKept(cfg: Config, s: State, e: Event, h: Hold)
    requires Untouched(e, h)
    ensures SamePrices(s.rows, Step(cfg, s, e).rows, h.rooms, h.checkIn, h.checkOut)
  {
    if e.OnUpdateRow? {
      UpdateKeepsPrices(s, e.cell, e.update, h);
    } else if e.OnBeginBooking? || e.OnFinishBooking? || e.OnPaymentIntent? {
      BookingEventKeepsTags(cfg, s, e);
    } else if e.OnPaymentSucceeded? || e.OnPaymentFailed? || e.OnCancel? || e.OnAdvanceStays? {
      PaymentEventKeepsTags(cfg, s, e);
    } else if e.OnExpireBooking? || e.OnRefundSucceeded? {
      ReturnEventKeepsTags(cfg, s, e);
    } else {
      HoldEventKeepsTags(cfg, s, e);
    }
  }

  lemma UpdateKeepsPrices(s: State, c: Cell, u: RowUpdate, h: Hold)
    requires u.price.Some? ==> !Selected(h.rooms, h.checkIn, h.checkOut, c)
    ensures SamePrices(s.rows, UpdateRow(s, c, u).rows, h.rooms, h.checkIn, h.checkOut)
  {
    forall i, day | 0 <= i < |h.rooms| && h.checkIn <= day < h.checkOut && u.price.Some?
      ensures Cell(h.rooms[i].room, day) != c
    {
      assert Names(h.rooms, h.rooms[i].room);
    }
  }

  /** Whose it is, its rooms, nights and price, and its deadline. */
  predicate SameHold(g: Hold, h: Hold) {
    h == g.(status := h.status, releasedAt := h.releasedAt)
  }

  /** A hold keeps all of that for ever, and its status once it has ended. */
  ghost predicate HoldsKept(s: State, t: State) {
    && |s.holds| <= |t.holds|
    && forall j | 0 <= j < |s.holds| ::
      SameHold(s.holds[j], t.holds[j]) && (!s.holds[j].status.Active? ==> t.holds[j] == s.holds[j])
  }

  lemma HoldEventKeepsHolds(cfg: Config, s: State, e: Event)
    requires e.OnCreateHold? || e.OnReleaseHold? || e.OnExpireHold? || e.OnFinishBooking? || e.OnPaymentIntent?
    ensures HoldsKept(s, Step(cfg, s, e))
  {
  }

  lemma OtherEventKeepsHolds(cfg: Config, s: State, e: Event)
    requires !e.OnCreateHold? && !e.OnReleaseHold? && !e.OnExpireHold? && !e.OnFinishBooking? && !e.OnPaymentIntent?
    ensures Step(cfg, s, e).holds == s.holds
  {
  }

  lemma StepKeepsHolds(cfg: Config, s: State, e: Event)
    ensures HoldsKept(s, Step(cfg, s, e))
  {
    if e.OnCreateHold? || e.OnReleaseHold? || e.OnExpireHold? || e.OnFinishBooking? || e.OnPaymentIntent? {
      HoldEventKeepsHolds(cfg, s, e);
    } else {
      OtherEventKeepsHolds(cfg, s, e);
    }
  }

  /** A new hold carries the total quoted at the prices of that moment. */
  lemma NewHoldIsQuoted(cfg: Config, s: State, e: Event)
    ensures var t := Step(cfg, s, e);
            |t.holds| > |s.holds| ==>
              && |t.holds| == |s.holds| + 1 && t.bookings == s.bookings
              && t.holds[|s.holds|].total == QuotedTotal(cfg, s.rows, t.holds[|s.holds|])
  {
    if !e.OnCreateHold? {
      OnlyCreateHoldAdds(cfg, s, e);
    }
  }

  lemma OnlyCreateHoldAdds(cfg: Config, s: State, e: Event)
    requires !e.OnCreateHold?
    ensures |Step(cfg, s, e).holds| == |s.holds|
  {
    if !e.OnReleaseHold? && !e.OnExpireHold? && !e.OnFinishBooking? && !e.OnPaymentIntent? {
      OtherEventKeepsHolds(cfg, s, e);
    }
  }

  /** A booking keeps its hold, its origin and its total; a new one is charged the hold's total if a payment
      intent made it, and the total at the prices of that moment if a request did. */
  ghost predicate ChargeOf(cfg: Config, s: State, t: State, i: nat)
    requires i < |t.bookings|
  {
    var b := t.bookings[i];
    if i < |s.bookings| then
      var before := s.bookings[i];
      b.hold == before.hold && b.total == before.total && b.source == before.source
    else
      && b.hold < |s.holds|
      && var h := s.holds[b.hold];
         b.total == if b.source.FromPaymentIntent? then h.total else QuotedTotal(cfg, s.rows, h)
  }

  lemma StepCharges(cfg: Config, s: State, e: Event, i: nat)
    requires i < |Step(cfg, s, e).bookings|
    ensures ChargeOf(cfg, s, Step(cfg, s, e), i)
  {
    match e
    case OnBeginBooking(_, _, _) =>
    case OnFinishBooking(_) =>
    case OnPaymentIntent(_, _) =>
    case _ => ReservationIdempotency.OtherStepSameLinks(cfg, s, e);
  }

  // ---- Over runs ----

  /** Hold j shows what a quote shows now, and every booking made from it was charged that. */
  ghost predicate AsQuoted(cfg: Config, s: State, j: nat) {
    j < |s.holds| ==>
      && s.holds[j].total == QuotedTotal(cfg, s.rows, s.holds[j])
      && forall i | 0 <= i < |s.bookings| && s.bookings[i].hold == j :: s.bookings[i].total == s.holds[j].total
  }

  /** What a step from s to t may do to hold j and to bookings. */
  ghost predicate QuotedChange(cfg: Config, s: State, t: State, j: nat) {
    && HoldsKept(s, t)
    && (forall i | 0 <= i < |t.bookings| :: ChargeOf(cfg, s, t, i))
    && (j < |t.holds| ==> QuotedTotal(cfg, s.rows, t.holds[j]) == QuotedTotal(cfg, t.rows, t.holds[j]))
    && (|s.holds| <= j < |t.holds|
        ==> t.bookings == s.bookings && t.holds[j].total == QuotedTotal(cfg, s.rows, t.holds[j]))
  }

  lemma StepIsQuotedChange(cfg: Config, s: State, e: Event, j: nat)
    requires j < |Step(cfg, s, e).holds| ==> Untouched(e, Step(cfg, s, e).holds[j])
    ensures QuotedChange(cfg, s, Step(cfg, s, e), j)
  {
    StepKeepsHolds(cfg, s, e);
    AllCharges(cfg, s, e);
    HoldPriced(cfg, s, e, j);
  }

  lemma AllCharges(cfg: Config, s: State, e: Event)
    ensures forall i | 0 <= i < |Step(cfg, s, e).bookings| :: ChargeOf(cfg, s, Step(cfg, s, e), i)
  {
    forall i | 0 <= i < |Step(cfg, s, e).bookings| ensures ChargeOf(cfg, s, Step(cfg, s, e), i) {
      StepCharges(cfg, s, e, i);
    }
  }

  lemma HoldPriced(cfg: Config, s: State, e: Event, j: nat)
    requires j < |Step(cfg, s, e).holds| ==> Untouched(e, Step(cfg, s, e).holds[j])
    ensures var t := Step(cfg, s, e);
            && (j < |t.holds| ==> QuotedTotal(cfg, s.rows, t.holds[j]) == QuotedTotal(cfg, t.rows, t.holds[j]))
            && (|s.holds| <= j < |t.holds|
                ==> t.bookings == s.bookings && t.holds[j].total == QuotedTotal(cfg, s.rows, t.holds[j]))
  {
    var t := Step(cfg, s, e);
    if j < |t.holds| {
      PricesKept(cfg, s, e, t.holds[j]);
      QuotedTotalSame(cfg, s.rows, t.rows, t.holds[j]);
      if |s.holds| <= j {
        NewHoldIsQuoted(cfg, s, e);
      }
    }
  }

  lemma ChangeKeepsQuoted(cfg: Config, s: State, t: State, j: nat)
    requires ReservationIdempotency.Linked(s) && AsQuoted(cfg, s, j) && QuotedChange(cfg, s, t, j)
    ensures AsQuoted(cfg, t, j)
  {
    if j < |t.holds| {
      forall i | 0 <= i < |t.bookings| && t.bookings[i].hold == j ensures t.bookings[i].total == t.holds[j].total {
        assert ChargeOf(cfg, s, t, i);
      }
    }
  }

  ghost predicate PricesStable(events: seq<Event>, h: Hold) {
    forall k | 0 <= k < |events| :: Untouched(events[k], h)
  }

  lemma {:induction false} RunKeepsQuoted(cfg: Config, now: int, rows: Table, events: seq<Event>, j: nat)
    requires var s := Run(cfg, Start(now, rows), events); j < |s.holds| ==> PricesStable(events, s.holds[j])
    ensures AsQuoted(cfg, Run(cfg, Start(now, rows), events), j)
  {
    if events != [] {
      var n := |events| - 1;
      var before := Run(cfg, Start(now, rows), events[..n]);
      StepKeepsHolds(cfg, before, events[n]);
      ReservationIdempotency.RunKeepsLinks(cfg, now, rows, events[..n]);
      if j < |before.holds| {
        assert SameHold(before.holds[j], Run(cfg, Start(now, rows), events).holds[j]);
      }
      RunKeepsQuoted(cfg, now, rows, events[..n], j);
      StepIsQuotedChange(cfg, before, events[n], j);
      ChangeKeepsQuoted(cfg, before, Step(cfg, before, events[n]), j);
    }
  }

  /** As long as no price on its rooms and nights is changed, whatever else happens, a hold and the booking
      made from it, on either path, cost what was quoted when the hold was made. */
  lemma ChargedAsQuoted(cfg: Config, now: int, rows: Table, events: seq<Event>, i: nat)
    ensures var s := Run(cfg, Start(now, rows), events);
            i < |s.bookings| ==>
              && s.bookings[i].hold < |s.holds|
              && var h := s.holds[s.bookings[i].hold];
              (PricesStable(events, h) ==> s.bookings[i].total == h.total == QuotedTotal(cfg, s.rows, h))
  {
    var s := Run(cfg, Start(now, rows), events);
    ReservationIdempotency.RunKeepsLinks(cfg, now, rows, events);
    if i < |s.bookings| && PricesStable(events, s.holds[s.bookings[i].hold]) {
      RunKeepsQuoted(cfg, now, rows, events, s.bookings[i].hold);
    }
  }

  /** Paid cash: if such a booking is settled as paid, its posting put exactly the quoted total into cash. */
  lemma PaidAsQuoted(cfg: Config, now: int, rows: Table, events: seq<Event>, i: nat)
    ensures var s := Run(cfg, Start(now, rows), events);
            i < |s.bookings| && ReservationPayments.PaidWithRooms(cfg, s, i) ==>
              && s.bookings[i].hold < |s.holds|
              && var h := s.holds[s.bookings[i].hold];
              (PricesStable(events, h) ==>
                 Ledger.NetOfLines(Ledger.EntriesOf(s.books, Ledger.PaymentSucceeded(i)), Ledger.PlatformCash)
                     == h.total)
  {
    var s := Run(cfg, Start(now, rows), events);
    ChargedAsQuoted(cfg, now, rows, events, i);
    if i < |s.bookings| && ReservationPayments.PaidWithRooms(cfg, s, i) {
      var b := s.bookings[i];
      ReservationPayments.RunKeepsBalance(cfg, now, rows, events);
      assert Ledger.Balanced(Ledger.EntriesOf(s.books, Ledger.PaymentSucceeded(i)));
      Ledger.PaymentAcceptedExactly(b.total, b.hotel, cfg.feeRate);
      Ledger.PaymentNet(b.total, b.hotel, cfg.feeRate, Ledger.PlatformCash);
    }
  }

  ghost predicate IntentsHonoured(s: State) {
    forall i | 0 <= i < |s.bookings| && s.bookings[i].source.FromPaymentIntent? ::
      s.bookings[i].hold < |s.holds| && s.bookings[i].total == s.holds[s.bookings[i].hold].total
  }

  /** Bookings made by a payment intent cost what the hold said in every run, price changes included. */
  lemma {:induction false} IntentChargesTheHold(cfg: Config, now: int, rows: Table, events: seq<Event>)
    ensures IntentsHonoured(Run(cfg, Start(now, rows), events))
  {
    if events != [] {
      var n := |events| - 1;
      IntentChargesTheHold(cfg, now, rows, events[..n]);
      StepHonours(cfg, Run(cfg, Start(now, rows), events[..n]), events[n]);
    }
  }

  lemma StepHonours(cfg: Config, s: State, e: Event)
    requires IntentsHonoured(s)
    ensures IntentsHonoured(Step(cfg, s, e))
  {
    var t := Step(cfg, s, e);
    StepKeepsHolds(cfg, s, e);
    forall i | 0 <= i < |t.bookings| && t.bookings[i].source.FromPaymentIntent?
      ensures t.bookings[i].hold < |t.holds| && t.bookings[i].total == t.holds[t.bookings[i].hold].total
    {
      StepCharges(cfg, s, e, i);
    }
  }

  // ---- Two ways to book one hold ----

  /** What one event adds to the price of the rooms and nights of a hold, as often as it quotes them. */
  function PriceChange(s: State, e: Event, h: Hold): int {
    if e.OnUpdateRow? && e.update.price.Some? && e.cell in s.rows && h.checkIn <= e.cell.day < h.checkOut
    then (e.update.price.value - s.rows[e.cell].price) * Demand(Pricing.QuotedRooms(h.rooms), e.cell.room)
    else 0
  }

  /** All price changes of a run together. */
  function NetRepricing(cfg: Config, s: State, events: seq<Event>, h: Hold): int {
    if events == [] then 0
    else
      var init := events[..|events| - 1];
      NetRepricing(cfg, s, init, h) + PriceChange(Run(cfg, s, init), events[|events| - 1], h)
  }

  function QuotedSubtotal(rows: Table, h: Hold): int {
    Pricing.Subtotal(rows, Pricing.QuotedRooms(h.rooms), h.checkIn, h.checkOut)
  }

  lemma {:induction false} RepricedRoom(a: Table, b: Table,
                                        c: Cell, d: int, entry: RoomQty, checkIn: int, checkOut: int)
    requires Repriced(a, b, c, d)
    ensures Pricing.RoomSubtotal(b, entry, checkIn, checkOut)
         == Pricing.RoomSubtotal(a, entry, checkIn, checkOut)
            + if entry.room == c.room && checkIn <= c.day < checkOut then d * entry.quantity else 0
    decreases checkOut - checkIn
  {
    if checkIn < checkOut {
      RepricedRoom(a, b, c, d, entry, checkIn, checkOut - 1);
      var p, q := Pricing.PriceAt(a, entry.room, checkOut - 1), Pricing.PriceAt(b, entry.room, checkOut - 1);
      if Cell(entry.room, checkOut - 1) == c {
        assert q * entry.quantity == p * entry.quantity + d * entry.quantity;
      }
    }
  }

  /** The tables show the same prices, but for one cell, where they differ by d. */
  ghost predicate Repriced(a: Table, b: Table, c: Cell, d: int) {
    forall room, day :: Pricing.PriceAt(b, room, day) == Pricing.PriceAt(a, room, day)
        + if Cell(room, day) == c then d else 0
  }

  lemma {:induction false} RepricedSubtotal(a: Table, b: Table,
                                            c: Cell, d: int, rooms: seq<RoomQty>, checkIn: int, checkOut: int)
    requires Repriced(a, b, c, d)
    ensures Pricing.Subtotal(b, rooms, checkIn, checkOut)
         == Pricing.Subtotal(a, rooms, checkIn, checkOut)
            + if checkIn <= c.day < checkOut then d * Demand(rooms, c.room) else 0
  {
    if rooms != [] {
      var init, last := rooms[..|rooms| - 1], rooms[|rooms| - 1];
      RepricedSubtotal(a, b, c, d, init, checkIn, checkOut);
      RepricedRoom(a, b, c, d, last, checkIn, checkOut);
      assert d * (Demand(init, c.room) + last.quantity) == d * Demand(init, c.room) + d * last.quantity;
    }
  }

  /** The subtotal a quote shows moves by the price changes on its cells and by nothing else. */
  lemma StepReprices(cfg: Config, s: State, e: Event, h: Hold)
    ensures QuotedSubtotal(Step(cfg, s, e).rows, h) == QuotedSubtotal(s.rows, h) + PriceChange(s, e, h)
  {
    if e.OnUpdateRow? && e.update.price.Some? && e.cell in s.rows {
      RepricedSubtotal(s.rows, UpdateRow(s, e.cell, e.update).rows, e.cell, e.update.price.value - s.rows[e.cell].price,
                       Pricing.QuotedRooms(h.rooms), h.checkIn, h.checkOut);
    } else if e.OnUpdateRow? {
      SubtotalSame(s.rows, UpdateRow(s, e.cell, e.update).rows, Pricing.QuotedRooms(h.rooms), h.checkIn, h.checkOut);
    } else {
      PricesKept(cfg, s, e, h);
      SubtotalSame(s.rows, Step(cfg, s, e).rows, Pricing.QuotedRooms(h.rooms), h.checkIn, h.checkOut);
    }
  }

  lemma {:induction false} RunReprices(cfg: Config, s: State, events: seq<Event>, h: Hold)
    ensures QuotedSubtotal(Run(cfg, s, events).rows, h) == QuotedSubtotal(s.rows, h) + NetRepricing(cfg, s, events, h)
  {
    if events != [] {
      var n := |events| - 1;
      RunReprices(cfg, s, events[..n], h);
      StepReprices(cfg, Run(cfg, s, events[..n]), events[n], h);
    }
  }

  lemma {:induction false} RunKeepsHolds(cfg: Config, s: State, events: seq<Event>)
    ensures HoldsKept(s, Run(cfg, s, events))
  {
    if events != [] {
      var n := |events| - 1;
      RunKeepsHolds(cfg, s, events[..n]);
      StepKeepsHolds(cfg, Run(cfg, s, events[..n]), events[n]);
    }
  }

  /** A higher subtotal always has the higher total. */
  lemma TotalIncreases(a: int, b: int, rates: Pricing.Rates)
    ensures Pricing.Total(a, rates) < Pricing.Total(b, rates) <==> a < b
  {
    if a < b {
      ShareMonotone(a, b, rates.tax);
      ShareMonotone(a, b, rates.serviceFee);
    } else {
      ShareMonotone(b, a, rates.tax);
      ShareMonotone(b, a, rates.serviceFee);
    }
  }

  /** A hold is made and anything happens.  If it can then be booked both ways, the request charges more than
      the payment intent exactly when the price changes on its rooms and nights since it was made, each counted
      by the rooms it covers, come to more than nothing, and the same exactly when they come to nothing. */
  lemma PathsAgreeExactly(cfg: Config, s: State, user: nat,
                          hotel: nat, rooms: seq<RoomQty>, checkIn: int, checkOut: int,
                          events: seq<Event>, id: KeyId)
    ensures var (held, created) := CreateHold(cfg, s, user, hotel, rooms, checkIn, checkOut);
            var i, t := |s.holds|, Run(cfg, held, events);
            var (requested, r1), (paid, r2) := BookHold(cfg, t, i, id), CreatePaymentIntent(t, id.user, true);
            created.Accepted? && r1.Accepted? && r2.Accepted? && OldestActive(t.holds, id.user, t.now) == Some(i) ==>
              var change := NetRepricing(cfg, held, events, held.holds[i]);
              var byRequest, byIntent := requested.bookings[|t.bookings|].total, paid.bookings[|t.bookings|].total;
              && (byRequest == byIntent <==> change == 0)
              && (byRequest > byIntent <==> change > 0)
  {
    var (held, created) := CreateHold(cfg, s, user, hotel, rooms, checkIn, checkOut);
    if created.Accepted? {
      var i, t := |s.holds|, Run(cfg, held, events);
      var h := held.holds[i];
      RunKeepsHolds(cfg, held, events);
      assert SameHold(h, t.holds[i]);
      CreatedAtQuote(cfg, s, user, hotel, rooms, checkIn, checkOut);
      RunReprices(cfg, held, events, h);
      ChargesBothWays(cfg, t, i, id);
      var current, agreed := QuotedSubtotal(t.rows, h), QuotedSubtotal(held.rows, h);
      TotalIncreases(current, agreed, cfg.rates);
      TotalIncreases(agreed, current, cfg.rates);
    }
  }

  lemma CreatedAtQuote(cfg: Config, s: State, user: nat, hotel: nat, rooms: seq<RoomQty>, checkIn: int, checkOut: int)
    ensures var (held, created) := CreateHold(cfg, s, user, hotel, rooms, checkIn, checkOut);
            created.Accepted? ==>
              held.holds[|s.holds|].total == Pricing.Total(QuotedSubtotal(held.rows, held.holds[|s.holds|]), cfg.rates)
  {
    var (held, created) := CreateHold(cfg, s, user, hotel, rooms, checkIn, checkOut);
    SubtotalSame(s.rows, held.rows, Pricing.QuotedRooms(rooms), checkIn, checkOut);
  }

  lemma ChargesBothWays(cfg: Config, s: State, i: nat, id: KeyId)
    ensures var (requested, r1), (paid, r2) := BookHold(cfg, s, i, id), CreatePaymentIntent(s, id.user, true);
            && (r1.Accepted? ==>
                  i < |s.holds| && requested.bookings[|s.bookings|].total
                      == Pricing.Total(QuotedSubtotal(s.rows, s.holds[i]), cfg.rates))
            && (r2.Accepted? && OldestActive(s.holds, id.user, s.now) == Some(i)
                ==> paid.bookings[|s.bookings|].total == s.holds[i].total)
  {
  }

  /** From an empty table: a guest holds a room at one price, the price is changed, and both ways to book are
      open.  They charge the two different prices. */
  lemma RepricedGuestPaysByPath(cfg: Config, price: nat, repriced: nat)
    requires price != repriced && Pricing.Total(price, cfg.rates) > 0
    ensures var t := Run(cfg, Start(0, Scenarios.OneRoom(price)), RepricedHold(repriced));
            var (requested, r1), (paid, r2) := BookHold(cfg, t, 0, KeyId(0, "key")), CreatePaymentIntent(t, 0, true);
            && r1.Accepted? && r2.Accepted?
            && requested.bookings[0].total == Pricing.Total(repriced, cfg.rates)
            && paid.bookings[0].total == Pricing.Total(price, cfg.rates)
            && requested.bookings[0].total != paid.bookings[0].total
  {
    var s := Start(0, Scenarios.OneRoom(price));
    RepricedRun(cfg, s, repriced);
    Scenarios.GuestHolds(cfg, price);
    RepricedGuest(cfg, CreateHold(cfg, s, 0, 0, Scenarios.Request(), 0, 1).0, price, repriced);
    TotalIncreases(price, repriced, cfg.rates);
    TotalIncreases(repriced, price, cfg.rates);
  }

  lemma RepricedRun(cfg: Config, s: State, repriced: nat)
    ensures Run(cfg, s, RepricedHold(repriced))
         == UpdateRow(CreateHold(cfg, s, 0, 0, Scenarios.Request(), 0, 1).0,
                      Cell(0, 0), RowUpdate(None, None, Some(repriced), None))
  {
    RunOfTwo(cfg, s, RepricedHold(repriced)[0], RepricedHold(repriced)[1]);
  }

  function RepricedHold(repriced: nat): seq<Event> {
    [OnCreateHold(0, 0, Scenarios.Request(), 0, 1),
     OnUpdateRow(Cell(0, 0), RowUpdate(None, None, Some(repriced), None))]
  }

  lemma RepricedGuest(cfg: Config, s: State, price: nat, repriced: nat)
    requires Scenarios.GuestHolding(cfg, s, price) && Pricing.Total(price, cfg.rates) > 0 && Cell(0, 0) in s.rows
    ensures var t := UpdateRow(s, Cell(0, 0), RowUpdate(None, None, Some(repriced), None));
            var (requested, r1), (paid, r2) := BookHold(cfg, t, 0, KeyId(0, "key")), CreatePaymentIntent(t, 0, true);
            && r1.Accepted? && r2.Accepted?
            && requested.bookings[0].total == Pricing.Total(repriced, cfg.rates)
            && paid.bookings[0].total == Pricing.Total(price, cfg.rates)
  {
    var t := UpdateRow(s, Cell(0, 0), RowUpdate(None, None, Some(repriced), None));
    assert s.holds[..0] == [];
    assert OldestActive(t.holds, 0, 0) == Some(0);
    Scenarios.OneRoomSubtotal(repriced);
    SubtotalSame(Scenarios.OneRoom(repriced), t.rows, Pricing.QuotedRooms([RoomQty(0, 1)]), 0, 1);
    Pricing.QuotedDistinctRooms([RoomQty(0, 1)]);
    ChargesBothWays(cfg, t, 0, KeyId(0, "key"));
  }
}
