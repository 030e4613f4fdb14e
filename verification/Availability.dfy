/** The availability queries, and how they agree with the check made when a hold is created. */
module Availability {
  import opened Inventory

  datatype Room = Room(hotel: nat, active: bool, maxGuests: nat)

  type Rooms = map<nat, Room>

  /** Nights from check-in to check-out, on whole days. */
  function NumberOfNights(checkIn: int, checkOut: int): int {
    checkOut - checkIn
  }

  predicate InStay(c: Cell, checkIn: int, checkOut: int) {
    checkIn <= c.day < checkOut
  }

  /** The nights of a stay, as many of them as days between the two dates. */
  function Days(checkIn: int, checkOut: int): (days: set<int>)
    ensures forall d :: d in days <==> checkIn <= d < checkOut
    ensures |days| == if checkIn < checkOut then checkOut - checkIn else 0
    decreases checkOut - checkIn
  {
    if checkOut <= checkIn then {} else Days(checkIn, checkOut - 1) + {checkOut - 1}
  }

  /** A subset with as many elements as the whole is the whole. */
  lemma SubsetOfSameSize<T>(a: set<T>, b: set<T>)
    requires a <= b && |a| == |b|
    ensures a == b
  {
    assert |b - a| == |b| - |a|;
  }

  // ---- The room list of a hotel ----

  function OpenRows(t: Table, room: nat, checkIn: int, checkOut: int): set<Cell> {
    set c | c in t && c.room == room && InStay(c, checkIn, checkOut) && t[c].status.Open?
  }

  function FittingRows(t: Table, room: nat, n: int, checkIn: int, checkOut: int): set<Cell> {
    set c | c in OpenRows(t, room, checkIn, checkOut) && t[c].Available() >= n
  }

  /** findAvailableRooms: rooms whose group of open rows has as many fitting rows as the stay has nights. */
  predicate Listed(t: Table, rooms: Rooms, room: nat, hotel: nat, guests: nat, n: int, checkIn: int, checkOut: int) {
    && room in rooms && rooms[room].hotel == hotel && rooms[room].active && rooms[room].maxGuests >= guests
    && OpenRows(t, room, checkIn, checkOut) != {}
    && |FittingRows(t, room, n, checkIn, checkOut)| == NumberOfNights(checkIn, checkOut)
  }

  /** What createHold accepts for one room type. */
  predicate HoldAccepted(t: Table, room: nat, n: Quantity, checkIn: int, checkOut: int) {
    checkIn < checkOut && Accepts(t, [RoomQty(room, n)], checkIn, checkOut)
  }

  /** A row per night that is open and has n rooms left. */
  ghost predicate FitsEveryNight(t: Table, room: nat, n: int, checkIn: int, checkOut: int) {
    forall d | checkIn <= d < checkOut ::
      Cell(room, d) in t && t[Cell(room, d)].status.Open? && t[Cell(room, d)].Available() >= n
  }

  lemma AcceptedFitsEveryNight(t: Table, room: nat, n: Quantity, checkIn: int, checkOut: int)
    ensures Accepts(t, [RoomQty(room, n)], checkIn, checkOut) <==> FitsEveryNight(t, room, n, checkIn, checkOut)
  {
    var request := [RoomQty(room, n)];
    assert request[..0] == [] && LastQuantity(request, room) == n;
    assert Names(request, room) by {
      assert request[0].room == room;
    }
    if Accepts(t, request, checkIn, checkOut) {
      forall d | checkIn <= d < checkOut
        ensures Cell(room, d) in t && t[Cell(room, d)].status.Open? && t[Cell(room, d)].Available() >= n
      {
        assert NightFound(t, request, d);
        assert Selected(request, checkIn, checkOut, Cell(room, d));
      }
    }
    if FitsEveryNight(t, room, n, checkIn, checkOut) {
      forall c | c in t && Selected(request, checkIn, checkOut, c)
        ensures RowFits(t[c], LastQuantity(request, c.room))
      {
        assert c == Cell(room, c.day);
      }
      forall d | checkIn <= d < checkOut ensures NightFound(t, request, d) {
        assert Cell(request[0].room, d) in t;
      }
    }
  }

  /** The counting argument: rows are unique per night, so as many fitting rows as nights means all nights. */
  lemma CountMeansEveryNight(t: Table, room: nat, n: int, checkIn: int, checkOut: int)
    requires checkIn < checkOut
    ensures |FittingRows(t, room, n, checkIn, checkOut)| == checkOut - checkIn
            <==> FitsEveryNight(t, room, n, checkIn, checkOut)
  {
    var rows, all := FittingRows(t, room, n, checkIn, checkOut), CellsOf(room, checkIn, checkOut);
    CountCells(room, checkIn, checkOut);
    assert rows <= all;
    if |rows| == checkOut - checkIn {
      SubsetOfSameSize(rows, all);
      forall d | checkIn <= d < checkOut
        ensures Cell(room, d) in t && t[Cell(room, d)].status.Open? && t[Cell(room, d)].Available() >= n
      {
        assert Cell(room, d) in all;
      }
    }
    if FitsEveryNight(t, room, n, checkIn, checkOut) {
      forall c | c in all ensures c in rows {
        assert c == Cell(room, c.day);
      }
      assert rows == all;
    }
  }

  function CellsOf(room: nat, checkIn: int, checkOut: int): set<Cell> {
    set d | checkIn <= d < checkOut :: Cell(room, d)
  }

  lemma {:induction false} CountCells(room: nat, checkIn: int, checkOut: int)
    requires checkIn <= checkOut
    ensures |CellsOf(room, checkIn, checkOut)| == checkOut - checkIn
    decreases checkOut - checkIn
  {
    if checkIn < checkOut {
      CountCells(room, checkIn, checkOut - 1);
      assert CellsOf(room, checkIn, checkOut) == CellsOf(room, checkIn, checkOut - 1) + {Cell(room, checkOut - 1)};
    } else {
      assert CellsOf(room, checkIn, checkOut) == {};
    }
  }

  /** The list shows a room for n rooms exactly when it is an active room of the hotel for enough guests, and a
      hold of n of it would be accepted. */
  lemma ListedExactlyWhenHoldable(t: Table, rooms: Rooms, room: nat,
                                  hotel: nat, guests: nat, n: Quantity, checkIn: int, checkOut: int)
    ensures Listed(t, rooms, room, hotel, guests, n, checkIn, checkOut) <==>
              && room in rooms && rooms[room].hotel == hotel && rooms[room].active && guests <= rooms[room].maxGuests
              && HoldAccepted(t, room, n, checkIn, checkOut)
  {
    if checkIn < checkOut {
      CountMeansEveryNight(t, room, n, checkIn, checkOut);
      AcceptedFitsEveryNight(t, room, n, checkIn, checkOut);
      assert FitsEveryNight(t, room, n, checkIn, checkOut)
             ==> Cell(room, checkIn) in OpenRows(t, room, checkIn, checkOut);
    }
  }

  /** What the hotel's own update of a row decides: afterwards n rooms can be held for that night exactly if the row
      is open and its total, less what is booked and held, comes to n, each column as the update says or, if it
      says nothing, as before. */
  lemma UpdateDecidesHolds(t: Table, c: Cell, u: RowUpdate, n: Quantity)
    requires c in t
    ensures HoldAccepted(t[c := Updated(t[c], u)], c.room, n, c.day, c.day + 1) <==>
              && (u.status.Some? ==> u.status.value.Open?) && (u.status.None? ==> t[c].status.Open?)
              && n + t[c].held + (if u.booked.Some? then u.booked.value else t[c].booked)
                 <= (if u.total.Some? then u.total.value else t[c].total)
  {
    var after := t[c := Updated(t[c], u)];
    AcceptedFitsEveryNight(after, c.room, n, c.day, c.day + 1);
    assert c == Cell(c.room, c.day) && c in after;
  }

  /** MIN(total - booked - held) over the open rows of the stay. */
  ghost predicate IsMinimum(t: Table, room: nat, checkIn: int, checkOut: int, m: int) {
    && (exists c | c in OpenRows(t, room, checkIn, checkOut) :: t[c].Available() == m)
    && (forall c | c in OpenRows(t, room, checkIn, checkOut) :: m <= t[c].Available())
  }

  /** For a listed room, the number of rooms it reports is the largest number that a hold would get. */
  lemma ReportedMinimumIsLargestHold(t: Table, rooms: Rooms, room: nat, hotel: nat, guests: nat, n: Quantity,
                                     checkIn: int, checkOut: int, m: int, k: Quantity)
    requires Listed(t, rooms, room, hotel, guests, n, checkIn, checkOut) && IsMinimum(t, room, checkIn, checkOut, m)
    ensures n <= m
    ensures HoldAccepted(t, room, k, checkIn, checkOut) <==> k <= m
  {
    ListedExactlyWhenHoldable(t, rooms, room, hotel, guests, n, checkIn, checkOut);
    AcceptedFitsEveryNight(t, room, n, checkIn, checkOut);
    AcceptedFitsEveryNight(t, room, k, checkIn, checkOut);
    var c :| c in OpenRows(t, room, checkIn, checkOut) && t[c].Available() == m;
    assert c == Cell(room, c.day);
    if k <= m {
      forall d | checkIn <= d < checkOut
        ensures Cell(room, d) in t && t[Cell(room, d)].status.Open? && t[Cell(room, d)].Available() >= k
      {
        assert Cell(room, d) in OpenRows(t, room, checkIn, checkOut);
      }
    }
  }

  // ---- The search phases ----

  datatype Search = Search(checkIn: int, checkOut: int, requiredRooms: nat, guests: nat)

  /** The WHERE clause shared by both phases.  It looks at total - booked and ignores held rooms. */
  predicate Qualifies(t: Table, rooms: Rooms, q: Search, c: Cell)
    requires c in t
  {
    && c.room in rooms && rooms[c.room].maxGuests >= q.guests
    && InStay(c, q.checkIn, q.checkOut) && t[c].status.Open? && t[c].total - t[c].booked >= q.requiredRooms
  }

  function HotelDates(t: Table, rooms: Rooms, q: Search, hotel: nat): set<int> {
    set c | c in t && Qualifies(t, rooms, q, c) && rooms[c.room].hotel == hotel :: c.day
  }

  function RoomDates(t: Table, rooms: Rooms, q: Search, room: nat): set<int> {
    set c | c in t && Qualifies(t, rooms, q, c) && c.room == room :: c.day
  }

  /** GROUP BY ... HAVING COUNT(DISTINCT date) = totalNights. */
  predicate FullGroup(dates: set<int>, q: Search) {
    dates != {} && |dates| == NumberOfNights(q.checkIn, q.checkOut)
  }

  /** checkDateRangeAvailability. */
  function Phase2(t: Table, rooms: Rooms, q: Search, hotels: set<nat>): set<nat> {
    set h | h in hotels && FullGroup(HotelDates(t, rooms, q, h), q)
  }

  /** getAvailableRoomsForHotel. */
  function RoomsForHotel(t: Table, rooms: Rooms, q: Search, hotel: nat): set<nat> {
    set r | r in rooms && rooms[r].hotel == hotel && FullGroup(RoomDates(t, rooms, q, r), q)
  }

  /** _phase3_getRoomDetails with its final filter. */
  function Phase3(t: Table, rooms: Rooms, q: Search, hotels: set<nat>): map<nat, set<nat>> {
    map h | h in hotels && RoomsForHotel(t, rooms, q, h) != {} :: RoomsForHotel(t, rooms, q, h)
  }

  lemma RoomCoversHotel(t: Table, rooms: Rooms, q: Search, room: nat)
    requires room in rooms && FullGroup(RoomDates(t, rooms, q, room), q)
    ensures FullGroup(HotelDates(t, rooms, q, rooms[room].hotel), q)
  {
    var ofRoom, ofHotel, days := RoomDates(t, rooms, q, room),
        HotelDates(t, rooms, q, rooms[room].hotel), Days(q.checkIn, q.checkOut);
    forall d | d in ofRoom ensures d in ofHotel {
      var c :| c in t && Qualifies(t, rooms, q, c) && c.room == room && c.day == d;
    }
    SubsetOfSameSize(ofRoom, days);
    assert ofHotel == days;
  }

  /** The hotel phase drops no hotel that the room phase would keep, so the two phases and the final filter
      give exactly what the room query alone gives. */
  lemma PrefilterIsSound(t: Table, rooms: Rooms, q: Search, hotels: set<nat>)
    ensures Phase3(t, rooms, q, Phase2(t, rooms, q, hotels)) == Phase3(t, rooms, q, hotels)
  {
    forall h | h in hotels && RoomsForHotel(t, rooms, q, h) != {} ensures h in Phase2(t, rooms, q, hotels) {
      var r :| r in RoomsForHotel(t, rooms, q, h);
      RoomCoversHotel(t, rooms, q, r);
    }
  }

  /** Some night of the stay, and every one of them, passes the query's condition. */
  lemma FullGroupIsEveryNight(dates: set<int>, q: Search)
    requires forall d | d in dates :: q.checkIn <= d < q.checkOut
    ensures FullGroup(dates, q) <==> q.checkIn < q.checkOut && forall d | q.checkIn <= d < q.checkOut :: d in dates
  {
    var days := Days(q.checkIn, q.checkOut);
    assert dates <= days;
    if FullGroup(dates, q) {
      var d :| d in dates;
      SubsetOfSameSize(dates, days);
    }
    if q.checkIn < q.checkOut && forall d | q.checkIn <= d < q.checkOut :: d in dates {
      assert dates == days && q.checkIn in dates;
    }
  }

  /** A room of the hotel qualifies on a night. */
  ghost predicate RoomQualifies(t: Table, rooms: Rooms, q: Search, hotel: nat, room: nat, day: int) {
    Cell(room, day) in t && Qualifies(t, rooms, q, Cell(room, day)) && rooms[room].hotel == hotel
  }

  ghost predicate SomeRoomQualifies(t: Table, rooms: Rooms, q: Search, hotel: nat, day: int) {
    exists room :: RoomQualifies(t, rooms, q, hotel, room, day)
  }

  ghost predicate QualifiesEveryNight(t: Table, rooms: Rooms, q: Search, hotel: nat, room: nat) {
    && room in rooms && rooms[room].hotel == hotel
    && forall d | q.checkIn <= d < q.checkOut :: RoomQualifies(t, rooms, q, hotel, room, d)
  }

  /** The hotel phase keeps a hotel exactly when on every night some room qualifies, the room phase exactly when
      some room qualifies on every night. */
  lemma PhasesSwapQuantifiers(t: Table, rooms: Rooms, q: Search, hotels: set<nat>, hotel: nat)
    ensures hotel in Phase2(t, rooms, q, hotels) <==>
              && hotel in hotels && q.checkIn < q.checkOut
              && forall d | q.checkIn <= d < q.checkOut :: SomeRoomQualifies(t, rooms, q, hotel, d)
    ensures hotel in Phase3(t, rooms, q, hotels) <==>
              && hotel in hotels && q.checkIn < q.checkOut
              && exists room :: QualifiesEveryNight(t, rooms, q, hotel, room)
  {
    HotelDatesAre(t, rooms, q, hotel);
    FullGroupIsEveryNight(HotelDates(t, rooms, q, hotel), q);
    forall room | room in rooms && rooms[room].hotel == hotel
      ensures room in RoomsForHotel(t, rooms, q, hotel)
              <==> q.checkIn < q.checkOut && QualifiesEveryNight(t, rooms, q, hotel, room)
    {
      RoomDatesAre(t, rooms, q, hotel, room);
      FullGroupIsEveryNight(RoomDates(t, rooms, q, room), q);
    }
    if hotel in Phase3(t, rooms, q, hotels) {
      var room :| room in RoomsForHotel(t, rooms, q, hotel);
      assert QualifiesEveryNight(t, rooms, q, hotel, room);
    }
  }

  lemma HotelDatesAre(t: Table, rooms: Rooms, q: Search, hotel: nat)
    ensures forall d :: d in HotelDates(t, rooms, q, hotel) <==> SomeRoomQualifies(t, rooms, q, hotel, d)
    ensures forall d | d in HotelDates(t, rooms, q, hotel) :: q.checkIn <= d < q.checkOut
  {
    forall d | d in HotelDates(t, rooms, q, hotel)
      ensures q.checkIn <= d < q.checkOut && SomeRoomQualifies(t, rooms, q, hotel, d)
    {
      var c :| c in t && Qualifies(t, rooms, q, c) && rooms[c.room].hotel == hotel && c.day == d;
      assert c == Cell(c.room, d) && RoomQualifies(t, rooms, q, hotel, c.room, d);
    }
    forall d | SomeRoomQualifies(t, rooms, q, hotel, d) ensures d in HotelDates(t, rooms, q, hotel) {
      var room :| RoomQualifies(t, rooms, q, hotel, room, d);
      assert Cell(room, d).day == d;
    }
  }

  lemma RoomDatesAre(t: Table, rooms: Rooms, q: Search, hotel: nat, room: nat)
    requires room in rooms && rooms[room].hotel == hotel
    ensures forall d :: d in RoomDates(t, rooms, q, room) <==> RoomQualifies(t, rooms, q, hotel, room, d)
    ensures forall d | d in RoomDates(t, rooms, q, room) :: q.checkIn <= d < q.checkOut
  {
    forall d | d in RoomDates(t, rooms, q, room)
      ensures q.checkIn <= d < q.checkOut && RoomQualifies(t, rooms, q, hotel, room, d)
    {
      var c :| c in t && Qualifies(t, rooms, q, c) && c.room == room && c.day == d;
      assert c == Cell(room, d);
    }
    forall d | RoomQualifies(t, rooms, q, hotel, room, d) ensures d in RoomDates(t, rooms, q, room) {
      assert Cell(room, d).day == d;
    }
  }

  /** A room is offered by the search exactly when it is a room of the hotel for enough guests, and on every night
      of the stay its row is open and has the rooms asked for, those held by others included. */
  lemma OfferedExactly(t: Table, rooms: Rooms, q: Search, hotel: nat, room: nat)
    ensures room in RoomsForHotel(t, rooms, q, hotel) <==>
              && room in rooms && rooms[room].hotel == hotel && q.guests <= rooms[room].maxGuests
              && q.checkIn < q.checkOut
              && forall d | q.checkIn <= d < q.checkOut ::
                && Cell(room, d) in t && t[Cell(room, d)].status.Open?
                && t[Cell(room, d)].booked + q.requiredRooms <= t[Cell(room, d)].total
  {
    if room in rooms && rooms[room].hotel == hotel {
      RoomDatesAre(t, rooms, q, hotel, room);
      FullGroupIsEveryNight(RoomDates(t, rooms, q, room), q);
      forall d | q.checkIn <= d < q.checkOut
        ensures RoomQualifies(t, rooms, q, hotel, room, d) <==>
                  && q.guests <= rooms[room].maxGuests && Cell(room, d) in t && t[Cell(room, d)].status.Open?
                  && t[Cell(room, d)].booked + q.requiredRooms <= t[Cell(room, d)].total
      {
      }
      if q.checkIn < q.checkOut {
        assert RoomQualifies(t, rooms, q, hotel, room, q.checkIn) ==> q.guests <= rooms[room].maxGuests;
      }
    }
  }

  /** The hotel phase alone is not enough: two rooms, each free on one of two nights, fill the date count. */
  lemma PrefilterAloneOverreports() returns (t: Table, rooms: Rooms, q: Search)
    ensures Phase2(t, rooms, q, {0}) == {0} && Phase3(t, rooms, q, {0}) == map[]
  {
    var row := Inventory.Row(1, 0, 0, Open, 0);
    t := map[Cell(0, 0) := row, Cell(1, 1) := row];
    rooms := map[0 := Room(0, true, 1), 1 := Room(0, true, 1)];
    q := Search(0, 2, 1, 1);
    assert Qualifies(t, rooms, q, Cell(0, 0)) && Qualifies(t, rooms, q, Cell(1, 1));
    assert Cell(0, 0).day == 0 && Cell(1, 1).day == 1;
    assert HotelDates(t, rooms, q, 0) == {0, 1};
    assert RoomDates(t, rooms, q, 0) == {0};
    assert RoomDates(t, rooms, q, 1) == {1};
  }

  /** A room that the search offers is accepted for a hold exactly when on no night the rooms held by others
      eat into the number asked for: the search does not count held rooms. */
  lemma SearchIgnoresHeldRooms(t: Table, rooms: Rooms, q: Search, hotel: nat, room: nat)
    requires room in RoomsForHotel(t, rooms, q, hotel) && q.requiredRooms >= 1
    ensures HoldAccepted(t, room, q.requiredRooms, q.checkIn, q.checkOut) <==>
              forall c | c in t && c.room == room && InStay(c, q.checkIn, q.checkOut) ::
                t[c].held <= t[c].total - t[c].booked - q.requiredRooms
  {
    var dates, days := RoomDates(t, rooms, q, room), Days(q.checkIn, q.checkOut);
    SubsetOfSameSize(dates, days);
    AcceptedFitsEveryNight(t, room, q.requiredRooms, q.checkIn, q.checkOut);
    forall d | q.checkIn <= d < q.checkOut ensures Cell(room, d) in t && t[Cell(room, d)].status.Open? {
      assert d in dates;
      var c :| c in t && Qualifies(t, rooms, q, c) && c.room == room && c.day == d;
      assert c == Cell(room, d);
    }
    forall c | c in t && c.room == room ensures c == Cell(room, c.day) {
    }
  }
}
