/** The price of a stay: accumulator loops over rooms and nights, then taxes and fees on the subtotal. */
module Pricing {
  import opened Common
  import opened Inventory
  import opened Money

  datatype Rates = Rates(tax: Rate, serviceFee: Rate, commission: Rate)

  datatype Night = Night(date: int, price: nat, quantity: Quantity, total: nat)

  datatype RoomQuote = RoomQuote(room: nat, quantity: Quantity, nightly: seq<Night>, subtotal: nat)

  datatype Quote = Quote(rooms: seq<RoomQuote>, subtotal: nat, tax: int, serviceFee: int, commission: int, total: int)

  /** A night without an inventory row is priced at zero. */
  function PriceAt(t: Table, room: nat, day: int): nat {
    if Cell(room, day) in t then t[Cell(room, day)].price else 0
  }

  /** The request list as the quote reads it: quantities come from the Map, where the last entry wins. */
  function QuotedRooms(rooms: seq<RoomQty>): (q: seq<RoomQty>)
    ensures |q| == |rooms|
  {
    seq(|rooms|, i requires 0 <= i < |rooms| => RoomQty(rooms[i].room, LastQuantity(rooms, rooms[i].room)))
  }

  lemma QuotedDistinctRooms(rooms: seq<RoomQty>)
    requires DistinctRooms(rooms)
    ensures QuotedRooms(rooms) == rooms
  {
    forall i | 0 <= i < |rooms| ensures QuotedRooms(rooms)[i] == rooms[i] {
      LastQuantityOfDistinct(rooms, i);
    }
  }

  // ---- The closed form ----

  function RoomSubtotal(t: Table, entry: RoomQty, checkIn: int, checkOut: int): nat
    decreases checkOut - checkIn
  {
    if checkOut <= checkIn then 0
    else RoomSubtotal(t, entry, checkIn, checkOut - 1) + PriceAt(t, entry.room, checkOut - 1) * entry.quantity
  }

  function Subtotal(t: Table, rooms: seq<RoomQty>, checkIn: int, checkOut: int): nat {
    if rooms == [] then 0
    else Subtotal(t, rooms[..|rooms| - 1], checkIn, checkOut)
         + RoomSubtotal(t, rooms[|rooms| - 1], checkIn, checkOut)
  }

  function Total(subtotal: int, rates: Rates): int {
    subtotal + Share(subtotal, rates.tax) + Share(subtotal, rates.serviceFee)
  }

  function NightOf(t: Table, entry: RoomQty, day: int): Night {
    var price := PriceAt(t, entry.room, day);
    Night(day, price, entry.quantity, price * entry.quantity)
  }

  function NightlyOf(t: Table, entry: RoomQty, checkIn: int, checkOut: int): seq<Night>
    requires checkIn <= checkOut
  {
    seq(checkOut - checkIn, j requires 0 <= j < checkOut - checkIn => NightOf(t, entry, checkIn + j))
  }

  function RoomQuoteOf(t: Table, entry: RoomQty, checkIn: int, checkOut: int): RoomQuote
    requires checkIn <= checkOut
  {
    RoomQuote(entry.room, entry.quantity, NightlyOf(t, entry, checkIn, checkOut),
              RoomSubtotal(t, entry, checkIn, checkOut))
  }

  function RoomQuotesOf(t: Table, entries: seq<RoomQty>, checkIn: int, checkOut: int): seq<RoomQuote>
    requires checkIn <= checkOut
  {
    seq(|entries|, i requires 0 <= i < |entries| => RoomQuoteOf(t, entries[i], checkIn, checkOut))
  }

  function QuoteOf(t: Table, rooms: seq<RoomQty>, checkIn: int, checkOut: int, rates: Rates): Result<Quote> {
    if rooms == [] then Err(InvalidRooms)
    else if checkIn >= checkOut then Err(InvalidDateRange)
    else
      var entries := QuotedRooms(rooms);
      var subtotal := Subtotal(t, entries, checkIn, checkOut);
      Ok(Quote(RoomQuotesOf(t, entries, checkIn, checkOut),
               subtotal, Share(subtotal, rates.tax), Share(subtotal, rates.serviceFee),
               Share(subtotal, rates.commission), Total(subtotal, rates)))
  }

  /** The nested accumulator loops of `quote`. */
  method ComputeQuote(t: Table, rooms: seq<RoomQty>, checkIn: int, checkOut: int, rates: Rates)
    returns (r: Result<Quote>)
    ensures r == QuoteOf(t, rooms, checkIn, checkOut, rates)
  {
    if rooms == [] {
      return Err(InvalidRooms);
    }
    if checkIn >= checkOut {
      return Err(InvalidDateRange);
    }
    var dates := Nights(checkIn, checkOut);
    ghost var entries := QuotedRooms(rooms);
    var breakdown, subtotal := [], 0;
    for i := 0 to |rooms|
      invariant |breakdown| == i
      invariant forall k | 0 <= k < i :: breakdown[k] == RoomQuoteOf(t, entries[k], checkIn, checkOut)
      invariant subtotal == Subtotal(t, entries[..i], checkIn, checkOut)
    {
      var entry := RoomQty(rooms[i].room, LastQuantity(rooms, rooms[i].room));
      var nightly, roomSubtotal := QuoteRoom(t, entry, checkIn, dates);
      subtotal := subtotal + roomSubtotal;
      breakdown := breakdown + [RoomQuote(entry.room, entry.quantity, nightly, roomSubtotal)];
      assert entries[..i + 1][..i] == entries[..i];
    }
    assert entries[..|rooms|] == entries;
    assert breakdown == RoomQuotesOf(t, entries, checkIn, checkOut);
    r := Ok(Quote(breakdown, subtotal, Share(subtotal, rates.tax), Share(subtotal, rates.serviceFee),
                  Share(subtotal, rates.commission),
                      subtotal + Share(subtotal, rates.tax) + Share(subtotal, rates.serviceFee)));
  }

  method QuoteRoom(t: Table, entry: RoomQty, checkIn: int, dates: seq<int>)
    returns (nightly: seq<Night>, roomSubtotal: nat)
    requires forall j | 0 <= j < |dates| :: dates[j] == checkIn + j
    ensures RoomQuote(entry.room, entry.quantity, nightly, roomSubtotal)
         == RoomQuoteOf(t, entry, checkIn, checkIn + |dates|)
  {
    nightly, roomSubtotal := [], 0;
    for j := 0 to |dates|
      invariant |nightly| == j
      invariant forall k | 0 <= k < j :: nightly[k] == NightOf(t, entry, checkIn + k)
      invariant roomSubtotal == RoomSubtotal(t, entry, checkIn, checkIn + j)
    {
      var price := PriceAt(t, entry.room, dates[j]);
      var nightTotal := price * entry.quantity;
      roomSubtotal := roomSubtotal + nightTotal;
      nightly := nightly + [Night(dates[j], price, entry.quantity, nightTotal)];
    }
    assert nightly == NightlyOf(t, entry, checkIn, checkIn + |dates|);
  }

  // ---- What the closed form means ----

  lemma {:induction false} RoomSubtotalSplits(t: Table, entry: RoomQty, checkIn: int, mid: int, checkOut: int)
    requires checkIn <= mid <= checkOut
    ensures RoomSubtotal(t, entry, checkIn, checkOut)
         == RoomSubtotal(t, entry, checkIn, mid) + RoomSubtotal(t, entry, mid, checkOut)
    decreases checkOut - mid
  {
    if mid < checkOut {
      RoomSubtotalSplits(t, entry, checkIn, mid, checkOut - 1);
    }
  }

  /** Splitting a stay in two leaves the subtotal unchanged. */
  lemma {:induction false} SubtotalSplits(t: Table, rooms: seq<RoomQty>, checkIn: int, mid: int, checkOut: int)
    requires checkIn <= mid <= checkOut
    ensures Subtotal(t, rooms, checkIn, checkOut)
         == Subtotal(t, rooms, checkIn, mid) + Subtotal(t, rooms, mid, checkOut)
  {
    if rooms != [] {
      SubtotalSplits(t, rooms[..|rooms| - 1], checkIn, mid, checkOut);
      RoomSubtotalSplits(t, rooms[|rooms| - 1], checkIn, mid, checkOut);
    }
  }

  /** Splitting a stay in two keeps the subtotal and moves the total by at most two cents. */
  lemma SplitStay(t: Table, rooms: seq<RoomQty>, checkIn: int, mid: int, checkOut: int, rates: Rates)
    requires rooms != [] && checkIn < mid < checkOut
    ensures var whole, first, second := QuoteOf(t, rooms, checkIn, checkOut, rates),
                QuoteOf(t, rooms, checkIn, mid, rates), QuoteOf(t, rooms, mid, checkOut, rates);
            && whole.Ok? && first.Ok? && second.Ok?
            && whole.value.subtotal == first.value.subtotal + second.value.subtotal
            && -2 <= whole.value.total - (first.value.total + second.value.total) <= 2
  {
    var entries := QuotedRooms(rooms);
    SubtotalSplits(t, entries, checkIn, mid, checkOut);
    var a, b := Subtotal(t, entries, checkIn, mid), Subtotal(t, entries, mid, checkOut);
    ShareSplit(a, b, rates.tax);
    ShareSplit(a, b, rates.serviceFee);
  }

  /** The bound of two cents is met: two one-night stays at 50 cents, taxed and charged 1% each. */
  lemma SplitStayBoundIsTight() returns (t: Table, rooms: seq<RoomQty>, rates: Rates)
    ensures var whole, first, second := QuoteOf(t, rooms, 0, 2, rates),
            QuoteOf(t, rooms, 0, 1, rates), QuoteOf(t, rooms, 1, 2, rates);
            && whole.Ok? && first.Ok? && second.Ok?
            && whole.value.total - (first.value.total + second.value.total) == -2
  {
    var row := Row(1, 0, 0, Open, 50);
    t := map[Cell(0, 0) := row, Cell(0, 1) := row];
    rooms := [RoomQty(0, 1)];
    rates := Rates(Fraction(1, 100), Fraction(1, 100), Fraction(0, 1));
    assert LastQuantity(rooms, 0) == 1;
    assert QuotedRooms(rooms) == rooms;
    assert rooms[..0] == [];
    assert RoomSubtotal(t, rooms[0], 0, 1) == 50 && RoomSubtotal(t, rooms[0], 1, 2) == 50;
    assert RoomSubtotal(t, rooms[0], 0, 2) == 100;
    forall a, b ensures Subtotal(t, rooms, a, b) == RoomSubtotal(t, rooms[0], a, b) {
      assert rooms[..|rooms| - 1] == [];
    }
  }

  /** Room subtotals add up to the subtotal. */
  function SumOfSubtotals(quotes: seq<RoomQuote>): nat {
    if quotes == [] then 0 else SumOfSubtotals(quotes[..|quotes| - 1]) + quotes[|quotes| - 1].subtotal
  }

  function SumOfNights(nights: seq<Night>): nat {
    if nights == [] then 0 else SumOfNights(nights[..|nights| - 1]) + nights[|nights| - 1].total
  }

  lemma {:induction false} BreakdownOf(t: Table, entries: seq<RoomQty>, checkIn: int, checkOut: int)
    requires checkIn <= checkOut
    ensures SumOfSubtotals(RoomQuotesOf(t, entries, checkIn, checkOut)) == Subtotal(t, entries, checkIn, checkOut)
  {
    if entries != [] {
      var init := entries[..|entries| - 1];
      BreakdownOf(t, init, checkIn, checkOut);
      assert RoomQuotesOf(t, entries, checkIn, checkOut)[..|init|] == RoomQuotesOf(t, init, checkIn, checkOut);
    }
  }

  lemma {:induction false} NightsOf(t: Table, entry: RoomQty, checkIn: int, checkOut: int)
    requires checkIn <= checkOut
    ensures SumOfNights(NightlyOf(t, entry, checkIn, checkOut)) == RoomSubtotal(t, entry, checkIn, checkOut)
    decreases checkOut - checkIn
  {
    if checkIn == checkOut {
      assert NightlyOf(t, entry, checkIn, checkOut) == [];
    } else {
      NightsOf(t, entry, checkIn, checkOut - 1);
      var all := NightlyOf(t, entry, checkIn, checkOut);
      assert all[|all| - 1] == NightOf(t, entry, checkOut - 1);
      assert all[..|all| - 1] == NightlyOf(t, entry, checkIn, checkOut - 1);
    }
  }

  /** Nights add up to their room's subtotal, rooms to the subtotal, subtotal and charges to the total. */
  lemma QuoteAddsUp(t: Table, rooms: seq<RoomQty>, checkIn: int, checkOut: int, rates: Rates)
    requires rooms != [] && checkIn < checkOut
    ensures var q := QuoteOf(t, rooms, checkIn, checkOut, rates);
            && q.Ok?
            && SumOfSubtotals(q.value.rooms) == q.value.subtotal
            && (forall i | 0 <= i < |rooms| :: SumOfNights(q.value.rooms[i].nightly) == q.value.rooms[i].subtotal)
            && q.value.total == q.value.subtotal + q.value.tax + q.value.serviceFee
  {
    var entries := QuotedRooms(rooms);
    BreakdownOf(t, entries, checkIn, checkOut);
    forall i | 0 <= i < |rooms|
      ensures SumOfNights(NightlyOf(t, entries[i], checkIn, checkOut)) == RoomSubtotal(t, entries[i], checkIn, checkOut)
    {
      NightsOf(t, entries[i], checkIn, checkOut);
    }
  }

  /** k is the amount times the rate, rounded to the nearest cent, halves up. */
  predicate IsRounded(k: int, amount: int, rate: Rate) {
    2 * rate.den * k <= 2 * (amount * rate.num) + rate.den < 2 * rate.den * k + 2 * rate.den
  }

  /** What a quote says in detail.  It refuses an empty list and an empty range, and nothing else.  Its nights are
      those of the stay, in order, each at the price of its row or at nothing without a row, for the last
      quantity named for the room; tax, service fee and commission are each their own rate of the subtotal. */
  lemma QuoteSays(t: Table, rooms: seq<RoomQty>, checkIn: int, checkOut: int, rates: Rates)
    ensures var r := QuoteOf(t, rooms, checkIn, checkOut, rates);
            && (r == Err(InvalidRooms) <==> rooms == [])
            && (r == Err(InvalidDateRange) <==> rooms != [] && checkOut <= checkIn)
            && (r.Ok? <==> rooms != [] && checkIn < checkOut)
            && (r.Ok? ==>
                  && var q := r.value;
                  && IsRounded(q.tax, q.subtotal, rates.tax) && IsRounded(q.serviceFee, q.subtotal, rates.serviceFee)
                  && IsRounded(q.commission, q.subtotal, rates.commission)
                  && |q.rooms| == |rooms|
                  && forall i | 0 <= i < |rooms| :: NightsShown(t, rooms, checkIn, checkOut, q.rooms[i], i))
  {
    if rooms != [] && checkIn < checkOut {
      var subtotal := Subtotal(t, QuotedRooms(rooms), checkIn, checkOut);
      ShareBounds(subtotal, rates.tax);
      ShareBounds(subtotal, rates.serviceFee);
      ShareBounds(subtotal, rates.commission);
      NightsAreShown(t, rooms, checkIn, checkOut);
    }
  }

  lemma NightsAreShown(t: Table, rooms: seq<RoomQty>, checkIn: int, checkOut: int)
    requires checkIn < checkOut
    ensures var quotes := RoomQuotesOf(t, QuotedRooms(rooms), checkIn, checkOut);
            && |quotes| == |rooms|
            && forall i | 0 <= i < |rooms| :: NightsShown(t, rooms, checkIn, checkOut, quotes[i], i)
  {
    forall i: nat, j: nat | i < |rooms| && j < checkOut - checkIn
      ensures var night := RoomQuotesOf(t, QuotedRooms(rooms), checkIn, checkOut)[i].nightly[j];
              night == NightOf(t, QuotedRooms(rooms)[i], checkIn + j)
    {
    }
  }

  predicate NightsShown(t: Table, rooms: seq<RoomQty>, checkIn: int, checkOut: int, q: RoomQuote, i: nat)
    requires i < |rooms|
  {
    && q.room == rooms[i].room && q.quantity == LastQuantity(rooms, rooms[i].room)
    && |q.nightly| == checkOut - checkIn
    && forall j | 0 <= j < |q.nightly| ::
      var night, c := q.nightly[j], Cell(rooms[i].room, checkIn + j);
      && night.date == c.day && night.quantity == q.quantity && night.total == night.price * night.quantity
      && night.price == if c in t then t[c].price else 0
  }

  // ---- The subtotal and the inventory ----

  /** Price times rooms claimed, over the rooms below `bound` on one night. */
  function NightValue(t: Table, rooms: seq<RoomQty>, day: int, bound: nat): nat {
    if bound == 0 then 0
    else NightValue(t, rooms, day, bound - 1) + PriceAt(t, bound - 1, day) * Demand(rooms, bound - 1)
  }

  /** The same over the nights of a stay: the value of the inventory that the stay claims. */
  function ClaimedValue(t: Table, rooms: seq<RoomQty>, checkIn: int, checkOut: int, bound: nat): nat
    decreases checkOut - checkIn
  {
    if checkOut <= checkIn then 0
    else ClaimedValue(t, rooms, checkIn, checkOut - 1, bound) + NightValue(t, rooms, checkOut - 1, bound)
  }

  lemma {:induction false} NightValueGrows(t: Table, rooms: seq<RoomQty>, day: int, bound: nat)
    requires rooms != []
    ensures var last := rooms[|rooms| - 1];
            NightValue(t, rooms, day, bound) == NightValue(t, rooms[..|rooms| - 1], day, bound)
              + if last.room < bound then PriceAt(t, last.room, day) * last.quantity else 0
  {
    if bound != 0 {
      NightValueGrows(t, rooms, day, bound - 1);
      var init, last, p := rooms[..|rooms| - 1], rooms[|rooms| - 1], PriceAt(t, bound - 1, day);
      if last.room == bound - 1 {
        assert p * (Demand(init, last.room) + last.quantity) == p * Demand(init, last.room) + p * last.quantity;
      }
    }
  }

  lemma {:induction false} ClaimedValueGrows(t: Table, rooms: seq<RoomQty>, checkIn: int, checkOut: int, bound: nat)
    requires rooms != [] && rooms[|rooms| - 1].room < bound
    ensures ClaimedValue(t, rooms, checkIn, checkOut, bound)
         == ClaimedValue(t, rooms[..|rooms| - 1], checkIn, checkOut, bound)
            + RoomSubtotal(t, rooms[|rooms| - 1], checkIn, checkOut)
    decreases checkOut - checkIn
  {
    if checkIn < checkOut {
      ClaimedValueGrows(t, rooms, checkIn, checkOut - 1, bound);
      NightValueGrows(t, rooms, checkOut - 1, bound);
    }
  }

  lemma {:induction false} NothingClaimed(t: Table, checkIn: int, checkOut: int, bound: nat)
    ensures ClaimedValue(t, [], checkIn, checkOut, bound) == 0
    decreases checkOut - checkIn
  {
    if checkIn < checkOut {
      NothingClaimed(t, checkIn, checkOut - 1, bound);
      NoNightValue(t, checkOut - 1, bound);
    }
  }

  lemma {:induction false} NoNightValue(t: Table, day: int, bound: nat)
    ensures NightValue(t, [], day, bound) == 0
  {
    if bound != 0 {
      NoNightValue(t, day, bound - 1);
    }
  }

  lemma {:induction false} SubtotalIsClaimedValue(t: Table,
                                                  rooms: seq<RoomQty>, checkIn: int, checkOut: int, bound: nat)
    requires forall i | 0 <= i < |rooms| :: rooms[i].room < bound
    ensures Subtotal(t, rooms, checkIn, checkOut) == ClaimedValue(t, rooms, checkIn, checkOut, bound)
  {
    if rooms == [] {
      NothingClaimed(t, checkIn, checkOut, bound);
    } else {
      SubtotalIsClaimedValue(t, rooms[..|rooms| - 1], checkIn, checkOut, bound);
      ClaimedValueGrows(t, rooms, checkIn, checkOut, bound);
    }
  }

  /** A guest naming each room once pays, row by row, the price of exactly the rooms that the batch loops
      take out of that row. */
  lemma PaysForWhatIsTaken(t: Table, rooms: seq<RoomQty>, checkIn: int, checkOut: int, rates: Rates, bound: nat)
    requires rooms != [] && DistinctRooms(rooms) && checkIn < checkOut
    requires forall i | 0 <= i < |rooms| :: rooms[i].room < bound
    ensures QuoteOf(t, rooms, checkIn, checkOut, rates).Ok?
    ensures QuoteOf(t, rooms, checkIn, checkOut, rates).value.subtotal
         == ClaimedValue(t, rooms, checkIn, checkOut, bound)
  {
    QuotedDistinctRooms(rooms);
    SubtotalIsClaimedValue(t, rooms, checkIn, checkOut, bound);
  }
}
