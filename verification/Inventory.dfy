/**
 The room_inventory table: one row per (room, date), with counters that holds and bookings move.
 Dates are day numbers; a stay occupies the nights checkIn <= day < checkOut.
 */
module Inventory {
  import opened Common

  datatype Cell = Cell(room: nat, day: int)

  datatype RowStatus = Open | Close | SoldOut | Maintenance

  datatype Row = Row(total: nat, booked: int, held: int, status: RowStatus, price: nat) {
    function Available(): int {
      total - booked - held
    }
  }

  type Table = map<Cell, Row>

  /** The request schema demands a whole number of rooms, at least one. */
  type Quantity = q: int | 1 <= q witness 1

  datatype RoomQty = RoomQty(room: nat, quantity: Quantity)

  /** The two counters, and the direction in which a batch moves one of them. */
  datatype Counter = Booked | Held
  datatype Direction = Up | Down

  /** Rooms of one type that a request list asks for, all its entries together. */
  function Demand(rooms: seq<RoomQty>, room: nat): nat {
    if rooms == [] then 0
    else
      var last := rooms[|rooms| - 1];
      Demand(rooms[..|rooms| - 1], room) + (if last.room == room then last.quantity else 0)
  }

  /** What a stay takes from one cell. */
  function Claim(rooms: seq<RoomQty>, checkIn: int, checkOut: int, c: Cell): nat {
    if checkIn <= c.day < checkOut then Demand(rooms, c.room) else 0
  }

  function Signed(dir: Direction, n: int): int {
    if dir.Up? then n else -n
  }

  function Bump(row: Row, counter: Counter, amount: int): Row {
    match counter
    case Booked => row.(booked := row.booked + amount)
    case Held => row.(held := row.held + amount)
  }

  /** What `update` may overwrite in a row; the held counter is not among it. */
  datatype RowUpdate = RowUpdate(total: Option<nat>, booked: Option<int>, price: Option<nat>, status: Option<RowStatus>)

  function Updated(row: Row, u: RowUpdate): Row {
    Row(if u.total.Some? then u.total.value else row.total,
        if u.booked.Some? then u.booked.value else row.booked,
        row.held,
        if u.status.Some? then u.status.value else row.status,
        if u.price.Some? then u.price.value else row.price)
  }

  /** The specification of the four batch loops: every existing row moves by its claim. */
  function Adjusted(t: Table, counter: Counter, dir: Direction,
                    rooms: seq<RoomQty>, checkIn: int, checkOut: int): Table
  {
    map c | c in t :: Bump(t[c], counter, Signed(dir, Claim(rooms, checkIn, checkOut, c)))
  }

  ghost predicate WithinCapacity(t: Table) {
    forall c | c in t :: 0 <= t[c].held && 0 <= t[c].booked && t[c].held + t[c].booked <= t[c].total
  }

  predicate Names(rooms: seq<RoomQty>, room: nat) {
    exists i | 0 <= i < |rooms| :: rooms[i].room == room
  }

  ghost predicate DistinctRooms(rooms: seq<RoomQty>) {
    forall i, j | 0 <= i < j < |rooms| :: rooms[i].room != rooms[j].room
  }

  /** The quantity found in a Map built from the list: a later entry overwrites an earlier one. */
  function LastQuantity(rooms: seq<RoomQty>, room: nat): Quantity {
    if rooms == [] then 1
    else
      var last := rooms[|rooms| - 1];
      if last.room == room then last.quantity else LastQuantity(rooms[..|rooms| - 1], room)
  }

  predicate Selected(rooms: seq<RoomQty>, checkIn: int, checkOut: int, c: Cell) {
    Names(rooms, c.room) && checkIn <= c.day < checkOut
  }

  predicate RowFits(row: Row, required: Quantity) {
    row.Available() >= required && row.status.Open?
  }

  /** What checkAvailabilityForHold answers: each row found is open and has room for the quantity asked
      for, and each night has a row of at least one of the rooms. */
  predicate Accepts(t: Table, rooms: seq<RoomQty>, checkIn: int, checkOut: int) {
    && (forall c | c in t && Selected(rooms, checkIn, checkOut, c) :: RowFits(t[c], LastQuantity(rooms, c.room)))
    && (forall d | checkIn <= d < checkOut :: NightFound(t, rooms, d))
  }

  predicate NightFound(t: Table, rooms: seq<RoomQty>, day: int) {
    exists i | 0 <= i < |rooms| :: Cell(rooms[i].room, day) in t
  }

  class RoomInventory {
    var rows: Table

    constructor (rows: Table)
      ensures this.rows == rows
    {
      this.rows := rows;
    }

    /** UPDATE ... SET counter = counter + amount WHERE room_id = room AND date = day. */
    method Increment(room: nat, day: int, counter: Counter, amount: int)
      modifies this
      ensures rows.Keys == old(rows).Keys
      ensures forall c | c in rows ::
                rows[c] == if c == Cell(room, day) then Bump(old(rows)[c], counter, amount) else old(rows)[c]
    {
      var c := Cell(room, day);
      if c in rows {
        rows := rows[c := Bump(rows[c], counter, amount)];
      }
    }

    /** UPDATE ... SET the given columns WHERE room_id = room AND date = day. */
    method Update(room: nat, day: int, u: RowUpdate)
      modifies this
      ensures rows.Keys == old(rows).Keys
      ensures forall c | c in rows :: rows[c] == if c == Cell(room, day) then Updated(old(rows)[c], u) else old(rows)[c]
    {
      var c := Cell(room, day);
      if c in rows {
        rows := rows[c := Updated(rows[c], u)];
      }
    }

    /** The nested loops shared by batchIncrementReserved, batchDecrementReserved, batchIncrementHeld and
        batchDecrementHeld: collect the nights, then for each entry touch each night. */
    method Batch(rooms: seq<RoomQty>, checkIn: int, checkOut: int, counter: Counter, dir: Direction)
      modifies this
      ensures rows == Adjusted(old(rows), counter, dir, rooms, checkIn, checkOut)
    {
      var dates := Nights(checkIn, checkOut);
      for i := 0 to |rooms|
        invariant rows.Keys == old(rows).Keys
        invariant forall c | c in rows :: rows[c] ==
                    Bump(old(rows)[c], counter, Signed(dir, Claim(rooms[..i], checkIn, checkOut, c)))
      {
        ghost var before := rows;
        var entry := rooms[i];
        for j := 0 to |dates|
          invariant rows.Keys == before.Keys
          invariant forall c | c in rows :: rows[c] ==
                      if c.room == entry.room && checkIn <= c.day < checkIn + j
                      then Bump(before[c], counter, Signed(dir, entry.quantity)) else before[c]
        {
          Increment(entry.room, dates[j], counter, Signed(dir, entry.quantity));
        }
        assert rooms[..i + 1][..i] == rooms[..i];
      }
      assert rooms[..|rooms|] == rooms;
    }

    /** The availability check before a hold: scan the rows found, then look for a night without any. */
    method CheckAvailabilityForHold(rooms: seq<RoomQty>, checkIn: int, checkOut: int) returns (ok: bool)
      ensures ok <==> Accepts(rows, rooms, checkIn, checkOut)
    {
      var found := set c | c in rows && Selected(rooms, checkIn, checkOut, c);
      var todo := found;
      while todo != {}
        invariant todo <= found
        invariant forall c | c in found - todo :: RowFits(rows[c], LastQuantity(rooms, c.room))
      {
        var c :| c in todo;
        if !RowFits(rows[c], LastQuantity(rooms, c.room)) {
          return false;
        }
        todo := todo - {c};
      }
      var foundDates := set c | c in found :: c.day;
      var expected := Nights(checkIn, checkOut);
      for j := 0 to |expected|
        invariant forall d | checkIn <= d < checkIn + j :: NightFound(rows, rooms, d)
      {
        if expected[j] !in foundDates {
          assert !NightFound(rows, rooms, checkIn + j) by {
            forall i | 0 <= i < |rooms| ensures Cell(rooms[i].room, checkIn + j) !in rows {
              var c := Cell(rooms[i].room, checkIn + j);
              assert c in rows ==> c in found;
            }
          }
          return false;
        }
        var c :| c in found && c.day == checkIn + j;
        assert NightFound(rows, rooms, c.day);
      }
      ok := true;
    }
  }

  /** The date loop: collect the current date and move it on by a day until it reaches the end. */
  method Nights(checkIn: int, checkOut: int) returns (dates: seq<int>)
    ensures |dates| == if checkIn < checkOut then checkOut - checkIn else 0
    ensures forall j | 0 <= j < |dates| :: dates[j] == checkIn + j
  {
    dates := [];
    var current := checkIn;
    while current < checkOut
      invariant current == checkIn + |dates|
      invariant checkIn < checkOut ==> current <= checkOut
      invariant checkOut <= checkIn ==> dates == []
      invariant forall j | 0 <= j < |dates| :: dates[j] == checkIn + j
    {
      dates := dates + [current];
      current := current + 1;
    }
  }

  // ---- What the batches do to the table ----

  /** A batch undoes the same batch in the other direction. */
  lemma DownUndoesUp(t: Table, counter: Counter, rooms: seq<RoomQty>, checkIn: int, checkOut: int)
    ensures Adjusted(Adjusted(t, counter, Up, rooms, checkIn, checkOut), counter, Down, rooms, checkIn, checkOut) == t
  {
  }

  /** Turning a hold into a booking moves rooms between the counters of a row and nothing else. */
  lemma ConversionKeepsOccupancy(t: Table, rooms: seq<RoomQty>, checkIn: int, checkOut: int, c: Cell)
    requires c in t
    ensures var t' := Adjusted(Adjusted(t, Held, Down, rooms, checkIn, checkOut), Booked, Up, rooms, checkIn, checkOut);
            && t'.Keys == t.Keys
            && t'[c].held + t'[c].booked == t[c].held + t[c].booked
            && t'[c].booked == t[c].booked + Claim(rooms, checkIn, checkOut, c)
            && t'[c].Available() == t[c].Available()
  {
  }

  // ---- When the check protects the capacity ----

  lemma {:induction false} DemandOfDistinct(rooms: seq<RoomQty>, room: nat)
    requires DistinctRooms(rooms)
    ensures Demand(rooms, room) == if Names(rooms, room) then LastQuantity(rooms, room) else 0
  {
    if rooms != [] {
      var init, last := rooms[..|rooms| - 1], rooms[|rooms| - 1];
      DemandOfDistinct(init, room);
      assert Names(init, room) ==> Names(rooms, room);
      if Names(rooms, room) && last.room != room {
        var i :| 0 <= i < |rooms| && rooms[i].room == room;
        assert init[i].room == room;
      }
    }
  }

  lemma {:induction false} DemandCoversLast(rooms: seq<RoomQty>, i: nat)
    requires i < |rooms|
    ensures Demand(rooms, rooms[i].room) >= LastQuantity(rooms, rooms[i].room)
    ensures Demand(rooms, rooms[i].room) >= 1
  {
    var init, last := rooms[..|rooms| - 1], rooms[|rooms| - 1];
    if last.room != rooms[i].room {
      assert init[i] == rooms[i];
      DemandCoversLast(init, i);
    }
  }

  lemma {:induction false} DuplicateExceedsLast(rooms: seq<RoomQty>, i: nat, j: nat)
    requires i < j < |rooms| && rooms[i].room == rooms[j].room
    ensures Demand(rooms, rooms[i].room) > LastQuantity(rooms, rooms[i].room)
  {
    var init, last := rooms[..|rooms| - 1], rooms[|rooms| - 1];
    assert init[i] == rooms[i];
    if last.room == rooms[i].room {
      DemandCoversLast(init, i);
    } else {
      assert init[j] == rooms[j];
      DuplicateExceedsLast(init, i, j);
    }
  }

  /** With each room named once, a batch moves the rows of entry i on the nights of the stay by exactly the
      quantity of entry i, and no row of another room or another night. */
  lemma BatchMovesExactly(t: Table, counter: Counter, dir: Direction, rooms: seq<RoomQty>,
                          checkIn: int, checkOut: int, c: Cell)
    requires DistinctRooms(rooms) && c in t
    ensures var t' := Adjusted(t, counter, dir, rooms, checkIn, checkOut);
            && t'.Keys == t.Keys
            && (!Selected(rooms, checkIn, checkOut, c) ==> t'[c] == t[c])
            && (forall i | 0 <= i < |rooms| && rooms[i].room == c.room && checkIn <= c.day < checkOut ::
                  t'[c] == Bump(t[c], counter, Signed(dir, rooms[i].quantity)))
  {
    DemandOfDistinct(rooms, c.room);
    forall i | 0 <= i < |rooms| && rooms[i].room == c.room
      ensures Demand(rooms, c.room) == rooms[i].quantity
    {
      LastQuantityOfDistinct(rooms, i);
    }
  }

  lemma {:induction false} LastQuantityOfDistinct(rooms: seq<RoomQty>, i: nat)
    requires DistinctRooms(rooms) && i < |rooms|
    ensures LastQuantity(rooms, rooms[i].room) == rooms[i].quantity
  {
    if i < |rooms| - 1 {
      assert rooms[..|rooms| - 1][i] == rooms[i];
      LastQuantityOfDistinct(rooms[..|rooms| - 1], i);
    }
  }

  /** A table holding one room type, with the same row on every night. */
  function OneRoomTable(room: nat, checkIn: int, checkOut: int, row: Row): Table {
    map d | checkIn <= d < checkOut :: Cell(room, d) := row
  }

  lemma DistinctHoldFits(t: Table, rooms: seq<RoomQty>, checkIn: int, checkOut: int)
    requires DistinctRooms(rooms) && WithinCapacity(t) && Accepts(t, rooms, checkIn, checkOut)
    ensures WithinCapacity(Adjusted(t, Held, Up, rooms, checkIn, checkOut))
  {
    forall c | c in t
      ensures 0 <= Claim(rooms, checkIn, checkOut, c)
      ensures t[c].held + Claim(rooms, checkIn, checkOut, c) + t[c].booked <= t[c].total
    {
      DemandOfDistinct(rooms, c.room);
      if Selected(rooms, checkIn, checkOut, c) {
        assert RowFits(t[c], LastQuantity(rooms, c.room));
      }
    }
  }

  lemma DuplicateHoldOverfills(rooms: seq<RoomQty>, i: nat, j: nat, checkIn: int, checkOut: int) returns (t: Table)
    requires i < j < |rooms| && rooms[i].room == rooms[j].room && checkIn < checkOut
    ensures WithinCapacity(t) && Accepts(t, rooms, checkIn, checkOut)
    ensures !WithinCapacity(Adjusted(t, Held, Up, rooms, checkIn, checkOut))
  {
    var room := rooms[i].room;
    t := OneRoomTable(room, checkIn, checkOut, Row(LastQuantity(rooms, room), 0, 0, Open, 0));
    forall d | checkIn <= d < checkOut ensures NightFound(t, rooms, d) {
      assert Cell(rooms[i].room, d) in t;
    }
    DuplicateExceedsLast(rooms, i, j);
    var c := Cell(room, checkIn);
    assert c in t && c in Adjusted(t, Held, Up, rooms, checkIn, checkOut);
  }

  /** The check before a hold prevents overbooking on every table exactly for the requests that name each
      room once: the Map of quantities forgets all but the last entry of a room, the batch adds them all. */
  lemma CheckProtectsCapacityExactlyForDistinctRooms(rooms: seq<RoomQty>, checkIn: int, checkOut: int)
    requires checkIn < checkOut
    ensures (forall t | WithinCapacity(t) && Accepts(t, rooms, checkIn, checkOut) ::
               WithinCapacity(Adjusted(t, Held, Up, rooms, checkIn, checkOut)))
            <==> DistinctRooms(rooms)
  {
    if DistinctRooms(rooms) {
      forall t | WithinCapacity(t) && Accepts(t, rooms, checkIn, checkOut)
        ensures WithinCapacity(Adjusted(t, Held, Up, rooms, checkIn, checkOut))
      {
        DistinctHoldFits(t, rooms, checkIn, checkOut);
      }
    } else {
      var i, j :| 0 <= i < j < |rooms| && rooms[i].room == rooms[j].room;
      var t := DuplicateHoldOverfills(rooms, i, j, checkIn, checkOut);
      assert WithinCapacity(t) && Accepts(t, rooms, checkIn, checkOut);
    }
  }

  /** Every requested room has a row on every night of the stay. */
  ghost predicate Backed(t: Table, rooms: seq<RoomQty>, checkIn: int, checkOut: int) {
    forall i, d | 0 <= i < |rooms| && checkIn <= d < checkOut :: Cell(rooms[i].room, d) in t
  }

  ghost predicate OneRoomType(rooms: seq<RoomQty>) {
    forall i | 0 <= i < |rooms| :: rooms[i].room == rooms[0].room
  }

  /** An accepted request is backed by inventory rows on every table exactly when it names one room type:
      a night counts as found as soon as any of the rooms has a row for it. */
  lemma CheckBacksEveryRoomExactlyForOneRoomType(rooms: seq<RoomQty>, checkIn: int, checkOut: int)
    requires checkIn < checkOut && rooms != []
    ensures (forall t | Accepts(t, rooms, checkIn, checkOut) :: Backed(t, rooms, checkIn, checkOut))
            <==> OneRoomType(rooms)
  {
    if OneRoomType(rooms) {
      forall t | Accepts(t, rooms, checkIn, checkOut) ensures Backed(t, rooms, checkIn, checkOut) {
        forall i, d | 0 <= i < |rooms| && checkIn <= d < checkOut ensures Cell(rooms[i].room, d) in t {
          assert NightFound(t, rooms, d);
          var k :| 0 <= k < |rooms| && Cell(rooms[k].room, d) in t;
          assert rooms[k].room == rooms[0].room == rooms[i].room;
        }
      }
    } else {
      var i :| 0 <= i < |rooms| && rooms[i].room != rooms[0].room;
      var room := rooms[0].room;
      var t := OneRoomTable(room, checkIn, checkOut, Row(LastQuantity(rooms, room), 0, 0, Open, 0));
      forall d | checkIn <= d < checkOut ensures NightFound(t, rooms, d) {
        assert Cell(rooms[0].room, d) in t;
      }
      assert Accepts(t, rooms, checkIn, checkOut);
      assert Cell(rooms[i].room, checkIn) !in t;
    }
  }
}
