/** What every orderly run of the reservation engine keeps. */
module ReservationLaws {
  import opened Common
  import opened Inventory
  import opened Reservations
  import Pricing

  // ---- Sums over holds and bookings ----

  ghost function Sum<T>(xs: seq<T>, f: T -> nat): nat {
    if xs == [] then 0 else Sum(xs[..|xs| - 1], f) + f(xs[|xs| - 1])
  }

  lemma {:induction false} SumUpdated<T>(xs: seq<T>, i: nat, x: T, f: T -> nat)
    requires i < |xs|
    ensures Sum(xs[i := x], f) + f(xs[i]) == Sum(xs, f) + f(x)
  {
    var n, ys := |xs| - 1, xs[i := x];
    if i == n {
      assert ys[..n] == xs[..n];
    } else {
      assert ys[..n] == xs[..n][i := x];
      SumUpdated(xs[..n], i, x, f);
    }
  }

  lemma {:induction false} SumSame<T>(xs: seq<T>, ys: seq<T>, f: T -> nat)
    requires |xs| == |ys| && forall i | 0 <= i < |xs| :: f(xs[i]) == f(ys[i])
    ensures Sum(xs, f) == Sum(ys, f)
  {
    if xs != [] {
      SumSame(xs[..|xs| - 1], ys[..|ys| - 1], f);
    }
  }

  // ---- The invariant ----

  /** What a hold keeps from a cell while it is active. */
  ghost function HoldClaim(c: Cell): Hold -> nat {
    (h: Hold) => if h.status.Active? then Claim(h.rooms, h.checkIn, h.checkOut, c) else 0
  }

  /** What a booking keeps from a cell until its rooms are given back. */
  ghost function BookingClaim(c: Cell): Booking -> nat {
    (b: Booking) => if b.roomsReturned then 0 else Claim(b.rooms, b.checkIn, b.checkOut, c)
  }

  /** Every row's counters are exactly the claims of active holds and of bookings with rooms. */
  ghost predicate Counted(s: State) {
    forall c | c in s.rows ::
      && s.rows[c].held == Sum(s.holds, HoldClaim(c))
      && s.rows[c].booked == Sum(s.bookings, BookingClaim(c))
  }

  ghost predicate HoldsSound(s: State) {
    forall i | 0 <= i < |s.holds| ::
        s.holds[i].rooms != [] && DistinctRooms(s.holds[i].rooms) && s.holds[i].checkIn < s.holds[i].checkOut
  }

  /** A booking stands for a completed hold and has the rooms and nights of that hold. */
  ghost predicate BookingMatchesHold(s: State, b: Booking) {
    && b.hold < |s.holds|
    && var h := s.holds[b.hold];
    && h.status.Completed?
    && b.rooms == h.rooms && b.checkIn == h.checkIn && b.checkOut == h.checkOut
  }

  ghost predicate BookingsSound(s: State) {
    forall i | 0 <= i < |s.bookings| :: BookingMatchesHold(s, s.bookings[i])
  }

  /** Inventory was given back once for each hold that is no longer active and for each booking without
      rooms, and never for the others. */
  ghost predicate ReturnedOnce(s: State) {
    && (forall i: nat ::
          multiset(s.log)[HoldReturn(i)] == if i < |s.holds| && !s.holds[i].status.Active? then 1 else 0)
    && (forall i: nat ::
          multiset(s.log)[BookingReturn(i)] == if i < |s.bookings| && s.bookings[i].roomsReturned then 1 else 0)
  }

  /** Nothing was expired before it was due. */
  ghost predicate ExpiredWhenDue(s: State) {
    && (forall i | 0 <= i < |s.holds| && s.holds[i].status.Expired? ::
          s.holds[i].releasedAt.Some? && s.holds[i].expiresAt <= s.holds[i].releasedAt.value <= s.now)
    && (forall i | 0 <= i < |s.bookings| && s.bookings[i].status.BookingExpired? ::
          && s.bookings[i].roomsReturned
          && s.bookings[i].cancelledAt.Some? && s.bookings[i].expiresAt <= s.bookings[i].cancelledAt.value <= s.now)
    && (forall i | 0 <= i < |s.bookings| && s.bookings[i].status.PendingPayment? :: !s.bookings[i].roomsReturned)
  }

  ghost predicate Invariant(s: State) {
    && Counted(s) && WithinCapacity(s.rows)
    && HoldsSound(s) && BookingsSound(s)
    && ReturnedOnce(s) && ExpiredWhenDue(s)
  }

  // ---- The steps that move inventory ----

  lemma HoldAdded(s: State, h: Hold)
    requires Counted(s) && h.status.Active?
    ensures Counted(s.(rows := Adjusted(s.rows, Held, Up, h.rooms, h.checkIn, h.checkOut), holds := s.holds + [h]))
  {
  }

  lemma HoldFreed(s: State, i: nat, status: HoldStatus)
    requires Counted(s) && i < |s.holds| && s.holds[i].status.Active? && !status.Active?
    ensures Counted(FreeHold(s, i, status))
  {
    var h, h' := s.holds[i], FreeHold(s, i, status).holds[i];
    forall c | c in s.rows
      ensures Sum(s.holds[i := h'], HoldClaim(c)) == s.rows[c].held - Claim(h.rooms, h.checkIn, h.checkOut, c)
    {
      SumUpdated(s.holds, i, h', HoldClaim(c));
    }
  }

  lemma BookingAdded(s: State, b: Booking)
    requires Counted(s) && !b.roomsReturned
    ensures Counted(s.(rows := Adjusted(s.rows, Booked, Up, b.rooms, b.checkIn, b.checkOut),
                       bookings := s.bookings + [b]))
  {
  }

  lemma BookingReturned(s: State, i: nat)
    requires Counted(s) && i < |s.bookings| && !s.bookings[i].roomsReturned && ReturnRooms(s, i).Ok?
    ensures Counted(ReturnRooms(s, i).value)
  {
    var b, b' := s.bookings[i], ReturnRooms(s, i).value.bookings[i];
    forall c | c in s.rows
      ensures Sum(s.bookings[i := b'], BookingClaim(c)) == s.rows[c].booked - Claim(b.rooms, b.checkIn, b.checkOut, c)
    {
      SumUpdated(s.bookings, i, b', BookingClaim(c));
    }
  }

  /** Counters that are sums of claims cannot be negative, so only the upper bound needs an argument. */
  lemma CapacityFromCounts(s: State)
    requires Counted(s) && forall c | c in s.rows :: s.rows[c].held + s.rows[c].booked <= s.rows[c].total
    ensures WithinCapacity(s.rows)
  {
  }

  /** Changing a booking without touching its rooms, nights or return flag. */
  predicate SameStay(a: Booking, b: Booking) {
    && a.rooms == b.rooms && a.checkIn == b.checkIn && a.checkOut == b.checkOut && a.roomsReturned == b.roomsReturned
    && a.hold == b.hold && a.expiresAt == b.expiresAt
  }

  ghost predicate Relabelling(a: Booking, b: Booking) {
    && SameStay(a, b) && a.cancelledAt == b.cancelledAt
    && (b.status != a.status ==> !b.status.BookingExpired? && !b.status.PendingPayment?)
  }

  /** Only bookings' labels, the ledger and the refund counter differ. */
  ghost predicate Relabelled(s: State, t: State) {
    && t.now == s.now && t.rows == s.rows && t.holds == s.holds && t.log == s.log
    && |t.bookings| == |s.bookings|
    && forall i | 0 <= i < |s.bookings| :: Relabelling(s.bookings[i], t.bookings[i])
  }

  lemma RelabellingKeeps(s: State, t: State)
    requires Invariant(s) && Relabelled(s, t)
    ensures Invariant(t)
  {
    forall c | c in s.rows ensures Sum(t.bookings, BookingClaim(c)) == Sum(s.bookings, BookingClaim(c)) {
      SumSame(t.bookings, s.bookings, BookingClaim(c));
    }
    forall i | 0 <= i < |t.bookings| ensures BookingMatchesHold(t, t.bookings[i]) {
      assert BookingMatchesHold(s, s.bookings[i]);
    }
    RelabellingKeepsRecords(s, t);
  }

  lemma RelabellingKeepsRecords(s: State, t: State)
    requires ReturnedOnce(s) && ExpiredWhenDue(s) && Relabelled(s, t)
    ensures ReturnedOnce(t) && ExpiredWhenDue(t)
  {
  }

  // ---- Each operation keeps the invariant ----

  lemma Logged(log: seq<Return>, r: Return, x: Return)
    ensures multiset(log + [r])[x] == multiset(log)[x] + if x == r then 1 else 0
  {
  }

  lemma CreateHoldKeeps(cfg: Config, s: State, user: nat, hotel: nat, rooms: seq<RoomQty>, checkIn: int, checkOut: int)
    requires Invariant(s) && DistinctRooms(rooms)
    ensures Invariant(CreateHold(cfg, s, user, hotel, rooms, checkIn, checkOut).0)
  {
    var (t, reply) := CreateHold(cfg, s, user, hotel, rooms, checkIn, checkOut);
    if reply.Accepted? {
      var h := t.holds[|s.holds|];
      HoldAdded(s, h);
      DistinctHoldFits(s.rows, rooms, checkIn, checkOut);
      forall i | 0 <= i < |t.bookings| ensures BookingMatchesHold(t, t.bookings[i]) {
        assert BookingMatchesHold(s, s.bookings[i]);
      }
    }
  }

  lemma FreeHoldKeeps(s: State, i: nat, status: HoldStatus)
    requires Invariant(s) && i < |s.holds| && s.holds[i].status.Active? && !status.Active?
    requires status.Expired? ==> HoldDue(s.holds[i], s.now)
    ensures Invariant(FreeHold(s, i, status))
  {
    var t := FreeHold(s, i, status);
    HoldFreed(s, i, status);
    CapacityFromCounts(t);
    forall j | 0 <= j < |s.bookings| ensures BookingMatchesHold(t, t.bookings[j]) {
      assert BookingMatchesHold(s, s.bookings[j]);
    }
    forall x: Return ensures multiset(t.log)[x] == multiset(s.log)[x] + if x == HoldReturn(i) then 1 else 0 {
      Logged(s.log, HoldReturn(i), x);
    }
  }

  ghost predicate FreshBooking(s: State, i: nat, b: Booking)
    requires i < |s.holds|
  {
    var h := s.holds[i];
    && b.hold == i && b.rooms == h.rooms && b.checkIn == h.checkIn && b.checkOut == h.checkOut
    && b.status.PendingPayment? && !b.roomsReturned
  }

  /** The new booking needs no availability check: it takes the rooms that its hold has just given back. */
  lemma ConvertKeeps(s: State, i: nat, b: Booking)
    requires Invariant(s) && i < |s.holds| && s.holds[i].status.Active? && FreshBooking(s, i, b)
    ensures Invariant(Convert(s, i, b))
  {
    var freed, t := FreeHold(s, i, HoldStatus.Completed), Convert(s, i, b);
    FreeHoldKeeps(s, i, HoldStatus.Completed);
    BookingAdded(freed, b);
    assert t == freed.(rows := Adjusted(freed.rows, Booked, Up, b.rooms, b.checkIn, b.checkOut),
                       bookings := freed.bookings + [b]);
    forall c | c in t.rows ensures t.rows[c].held + t.rows[c].booked <= t.rows[c].total {
      ConversionKeepsOccupancy(s.rows, b.rooms, b.checkIn, b.checkOut, c);
    }
    CapacityFromCounts(t);
    ConvertedBookings(s, i, b);
    ConvertedLog(s, i, b);
  }

  lemma ConvertedBookings(s: State, i: nat, b: Booking)
    requires Invariant(s) && i < |s.holds| && s.holds[i].status.Active? && FreshBooking(s, i, b)
    ensures HoldsSound(Convert(s, i, b)) && BookingsSound(Convert(s, i, b))
  {
  }

  lemma ConvertedLog(s: State, i: nat, b: Booking)
    requires Invariant(s) && i < |s.holds| && s.holds[i].status.Active? && FreshBooking(s, i, b)
    ensures ReturnedOnce(Convert(s, i, b)) && ExpiredWhenDue(Convert(s, i, b))
  {
    var freed, t := FreeHold(s, i, HoldStatus.Completed), Convert(s, i, b);
    FreeHoldKeeps(s, i, HoldStatus.Completed);
    assert t.log == freed.log && t.holds == freed.holds;
    forall j: nat
      ensures multiset(t.log)[BookingReturn(j)] == if j < |t.bookings| && t.bookings[j].roomsReturned then 1 else 0
    {
      assert multiset(freed.log)[BookingReturn(j)]
             == if j < |freed.bookings| && freed.bookings[j].roomsReturned then 1 else 0;
    }
    forall j: nat
      ensures multiset(t.log)[HoldReturn(j)] == if j < |t.holds| && !t.holds[j].status.Active? then 1 else 0
    {
      assert multiset(freed.log)[HoldReturn(j)] == if j < |freed.holds| && !freed.holds[j].status.Active? then 1 else 0;
    }
  }

  lemma BookHoldKeeps(cfg: Config, s: State, i: nat, id: KeyId)
    requires Invariant(s)
    ensures Invariant(BookHold(cfg, s, i, id).0)
  {
    var (t, reply) := BookHold(cfg, s, i, id);
    if reply.Accepted? {
      Pricing.QuotedDistinctRooms(s.holds[i].rooms);
      ConvertKeeps(s, i, t.bookings[|s.bookings|]);
    }
  }

  /** The invariant does not look at the idempotency records. */
  lemma KeysDoNotMatter(s: State, t: State)
    requires Invariant(s) && t == s.(keys := t.keys)
    ensures Invariant(t)
  {
  }

  lemma FinishBookingKeeps(cfg: Config, s: State, id: KeyId)
    requires Invariant(s)
    ensures Invariant(FinishBooking(cfg, s, id).0)
  {
    var t := FinishBooking(cfg, s, id).0;
    if id in s.keys && s.keys[id].status.InProgress? {
      BookHoldKeeps(cfg, s, s.keys[id].hold, id);
      var (after, reply) := BookHold(cfg, s, s.keys[id].hold, id);
      KeysDoNotMatter(if reply.Accepted? then after else s, t);
    }
  }

  lemma PaymentIntentKeeps(s: State, user: nat, accepts: bool)
    requires Invariant(s)
    ensures Invariant(CreatePaymentIntent(s, user, accepts).0)
  {
    var (t, reply) := CreatePaymentIntent(s, user, accepts);
    if reply.Accepted? {
      var i := OldestActive(s.holds, user, s.now).value;
      ConvertKeeps(s, i, BookingFromIntent(s, i));
    }
  }

  /** Giving back a booking's rooms while marking it expired or cancelled. */
  lemma ReturnKeeps(s: State, i: nat, b: Booking)
    requires Invariant(s) && i < |s.bookings| && !s.bookings[i].roomsReturned && ReturnRooms(s, i).Ok?
    requires b.roomsReturned && SameStay(s.bookings[i].(roomsReturned := true), b) && !b.status.PendingPayment?
    requires b.status.BookingExpired? ==> BookingDue(s.bookings[i], s.now) && b.cancelledAt == Some(s.now)
    ensures var r := ReturnRooms(s, i).value; Invariant(r.(bookings := r.bookings[i := b]))
  {
    ReturnedCounts(s, i, b);
    ReturnedLog(s, i, b);
    var r := ReturnRooms(s, i).value;
    var t := r.(bookings := r.bookings[i := b]);
    forall j | 0 <= j < |t.bookings| ensures BookingMatchesHold(t, t.bookings[j]) {
      assert BookingMatchesHold(s, s.bookings[j]);
    }
  }

  lemma ReturnedCounts(s: State, i: nat, b: Booking)
    requires Counted(s) && WithinCapacity(s.rows)
    requires i < |s.bookings| && !s.bookings[i].roomsReturned && ReturnRooms(s, i).Ok?
    requires SameStay(s.bookings[i].(roomsReturned := true), b)
    ensures var r := ReturnRooms(s, i).value;
            var t := r.(bookings := r.bookings[i := b]); Counted(t) && WithinCapacity(t.rows)
  {
    var r := ReturnRooms(s, i).value;
    BookingReturned(s, i);
    CapacityFromCounts(r);
    forall c | c in s.rows ensures Sum(r.bookings[i := b], BookingClaim(c)) == Sum(r.bookings, BookingClaim(c)) {
      SumSame(r.bookings[i := b], r.bookings, BookingClaim(c));
    }
  }

  lemma ReturnedLog(s: State, i: nat, b: Booking)
    requires ReturnedOnce(s) && i < |s.bookings|
             && !s.bookings[i].roomsReturned && ReturnRooms(s, i).Ok? && b.roomsReturned
    ensures var r := ReturnRooms(s, i).value; ReturnedOnce(r.(bookings := r.bookings[i := b]))
  {
  }

  lemma ExpireBookingKeeps(s: State, i: nat)
    requires Invariant(s)
    ensures Invariant(ExpireBooking(s, i).0)
  {
    var (t, reply) := ExpireBooking(s, i);
    if reply.Accepted? {
      ReturnKeeps(s, i, t.bookings[i]);
    }
  }

  /** Rows do not see who asks, only how much. */
  lemma SameClaimsAdjust(t: Table, counter: Counter, dir: Direction, notice: Notice, b: Booking)
    requires NoticeMatches(t, notice, b)
    ensures Adjusted(t, counter, dir, notice.rooms, notice.checkIn, notice.checkOut)
            == Adjusted(t, counter, dir, b.rooms, b.checkIn, b.checkOut)
  {
  }

  /** A matching notification does what giving back the booking's own rooms does. */
  lemma RefundReturnsOwnRooms(s: State, i: nat, notice: Notice)
    requires BookingsSound(s) && HoldsSound(s) && i < |s.bookings| && s.bookings[i].charged
    requires notice.rooms != [] && notice.checkIn < notice.checkOut && NoticeMatches(s.rows, notice, s.bookings[i])
    ensures ReturnRooms(s, i).Ok?
    ensures var r, t := ReturnRooms(s, i).value, HandleRefundSucceeded(s, i, notice).0;
            t == r.(bookings := r.bookings[i := t.bookings[i]])
  {
    assert BookingMatchesHold(s, s.bookings[i]);
    SameClaimsAdjust(s.rows, Booked, Down, notice, s.bookings[i]);
  }

  lemma RefundKeeps(s: State, i: nat, notice: Notice)
    requires Invariant(s)
    requires notice.rooms != [] && notice.checkIn < notice.checkOut && i < |s.bookings| && s.bookings[i].charged ==>
               !s.bookings[i].roomsReturned && NoticeMatches(s.rows, notice, s.bookings[i])
    ensures Invariant(HandleRefundSucceeded(s, i, notice).0)
  {
    var (t, reply) := HandleRefundSucceeded(s, i, notice);
    if reply.Accepted? {
      if notice.rooms != [] {
        RefundReturnsOwnRooms(s, i, notice);
        ReturnKeeps(s, i, t.bookings[i]);
      } else {
        RelabellingKeeps(s, t);
      }
    }
  }

  lemma TickKeeps(s: State, ms: nat)
    requires Invariant(s)
    ensures Invariant(s.(now := s.now + ms))
  {
  }

  lemma UpdateRowKeeps(s: State, c: Cell, u: RowUpdate)
    requires Invariant(s) && (c in s.rows ==> SafeUpdate(s.rows[c], u))
    ensures Invariant(UpdateRow(s, c, u))
  {
    var t := UpdateRow(s, c, u);
    forall i | 0 <= i < |t.bookings| ensures BookingMatchesHold(t, t.bookings[i]) {
      assert BookingMatchesHold(s, s.bookings[i]);
    }
  }

  /** Prices and statuses may change at any time; of the other columns, exactly the updates that leave the
      booked counter alone and the total no lower than what is taken keep the inventory right. */
  lemma UpdateKeepsExactlySafe(s: State, c: Cell, u: RowUpdate)
    requires Invariant(s) && c in s.rows
    ensures Invariant(UpdateRow(s, c, u)) <==> SafeUpdate(s.rows[c], u)
  {
    if SafeUpdate(s.rows[c], u) {
      UpdateRowKeeps(s, c, u);
    } else {
      var t := UpdateRow(s, c, u);
      assert t.rows[c].held == s.rows[c].held;
      assert Counted(t) ==> t.rows[c].booked == s.rows[c].booked;
    }
  }

  lemma ReleaseHoldKeeps(s: State, i: nat, user: nat)
    requires Invariant(s)
    ensures Invariant(ReleaseHold(s, i, user, Released).0)
  {
    if ReleaseHold(s, i, user, Released).1.Accepted? {
      FreeHoldKeeps(s, i, Released);
    }
  }

  lemma ExpireHoldKeeps(s: State, i: nat)
    requires Invariant(s)
    ensures Invariant(ExpireHold(s, i).0)
  {
    if ExpireHold(s, i).1.Accepted? {
      FreeHoldKeeps(s, i, Expired);
    }
  }

  lemma PaymentRelabels(cfg: Config, s: State, i: nat, refunded: bool)
    ensures Relabelled(s, HandlePaymentSucceeded(cfg, s, i, refunded).0)
  {
  }

  lemma PaymentFailureRelabels(s: State, i: nat)
    ensures Relabelled(s, HandlePaymentFailed(s, i).0)
  {
  }

  lemma RefundRelabels(cfg: Config, s: State, i: nat, cents: int, provider: ProviderRefund)
    requires i < |s.bookings|
    ensures Relabelled(s, ProcessRefund(cfg, s, i, cents, provider))
  {
  }

  lemma CancelledRelabels(s: State, t: State, i: nat)
    requires Relabelled(s, t) && i < |t.bookings|
    ensures Relabelled(s, t.(bookings := t.bookings[i := t.bookings[i].(status := Cancelled)]))
  {
  }

  lemma CancelRelabels(cfg: Config, s: State, i: nat, user: nat, cents: Option<int>, provider: ProviderRefund)
    ensures Relabelled(s, CancelBooking(cfg, s, i, user, cents, provider).0)
  {
    if CancelBooking(cfg, s, i, user, cents, provider).1.Accepted? {
      if cents.Some? && cents.value > 0 {
        RefundRelabels(cfg, s, i, cents.value, provider);
        CancelledRelabels(s, ProcessRefund(cfg, s, i, cents.value, provider), i);
      } else {
        CancelledRelabels(s, s, i);
      }
    }
  }

  lemma AdvanceStaysRelabels(s: State, user: nat, today: int)
    ensures Relabelled(s, AdvanceStays(s, user, today))
  {
  }

  lemma PaymentEventKeeps(cfg: Config, s: State, e: Event)
    requires Invariant(s) && (e.OnPaymentSucceeded? || e.OnPaymentFailed? || e.OnCancel? || e.OnAdvanceStays?)
    ensures Invariant(Step(cfg, s, e))
  {
    match e {
      case OnPaymentSucceeded(i, refunded) => PaymentRelabels(cfg, s, i, refunded);
      case OnPaymentFailed(i) => PaymentFailureRelabels(s, i);
      case OnCancel(i, user, cents, provider) => CancelRelabels(cfg, s, i, user, cents, provider);
      case OnAdvanceStays(user, today) => AdvanceStaysRelabels(s, user, today);
    }
    RelabellingKeeps(s, Step(cfg, s, e));
  }

  lemma HoldEventKeeps(cfg: Config, s: State, e: Event)
    requires Invariant(s) && Orderly(s, e)
             && (e.OnCreateHold? || e.OnReleaseHold? || e.OnExpireHold? || e.Tick? || e.OnUpdateRow?)
    ensures Invariant(Step(cfg, s, e))
  {
    match e
    case Tick(ms) => TickKeeps(s, ms);
    case OnCreateHold(user, hotel, rooms, checkIn, checkOut) =>
        CreateHoldKeeps(cfg, s, user, hotel, rooms, checkIn, checkOut);
    case OnReleaseHold(i, user) => ReleaseHoldKeeps(s, i, user);
    case OnExpireHold(i) => ExpireHoldKeeps(s, i);
    case OnUpdateRow(c, u) => UpdateRowKeeps(s, c, u);
  }

  lemma BookingEventKeeps(cfg: Config, s: State, e: Event)
    requires Invariant(s) && (e.OnBeginBooking? || e.OnFinishBooking? || e.OnPaymentIntent?)
    ensures Invariant(Step(cfg, s, e))
  {
    match e
    case OnBeginBooking(id, body, hold) => KeysDoNotMatter(s, Step(cfg, s, e));
    case OnFinishBooking(id) => FinishBookingKeeps(cfg, s, id);
    case OnPaymentIntent(user, accepts) => PaymentIntentKeeps(s, user, accepts);
  }

  /** Every event, in any state that satisfies the invariant, keeps it. */
  lemma StepKeeps(cfg: Config, s: State, e: Event)
    requires Invariant(s) && Orderly(s, e)
    ensures Invariant(Step(cfg, s, e))
  {
    if e.OnCreateHold? || e.OnReleaseHold? || e.OnExpireHold? || e.Tick? || e.OnUpdateRow? {
      HoldEventKeeps(cfg, s, e);
    } else if e.OnBeginBooking? || e.OnFinishBooking? || e.OnPaymentIntent? {
      BookingEventKeeps(cfg, s, e);
    } else if e.OnExpireBooking? {
      ExpireBookingKeeps(s, e.staleBooking);
    } else if e.OnRefundSucceeded? {
      RefundKeeps(s, e.refundedBooking, e.notice);
    } else {
      PaymentEventKeeps(cfg, s, e);
    }
  }

  lemma StartInvariant(now: int, rows: Table)
    ensures Invariant(Start(now, rows))
  {
  }

  /** The engine's safety: after every orderly run, from a table at rest, each row's held and booked counters
      are exactly the claims of the active holds and of the bookings that still have their rooms, and
      together they never exceed the row's total. */
  lemma {:induction false} EveryOrderlyRunIsSafe(cfg: Config, now: int, rows: Table, events: seq<Event>)
    requires OrderlyRun(cfg, Start(now, rows), events)
    ensures Invariant(Run(cfg, Start(now, rows), events))
  {
    if events == [] {
      StartInvariant(now, rows);
    } else {
      var n := |events| - 1;
      EveryOrderlyRunIsSafe(cfg, now, rows, events[..n]);
      StepKeeps(cfg, Run(cfg, Start(now, rows), events[..n]), events[n]);
    }
  }

  // ---- Scanners ----

  /** Whatever list a scanner works from, the step it takes for one id expires the hold exactly when it is due
      at that moment, and otherwise changes nothing. */
  lemma ScanStep(s: State, i: nat)
    requires Invariant(s)
    ensures var (t, reply) := ExpireHold(s, i);
            && (reply.Accepted? <==> i < |s.holds| && HoldDue(s.holds[i], s.now))
            && (reply.Accepted? ==> t.holds[i].status.Expired? && t.log == s.log + [HoldReturn(i)])
            && (!reply.Accepted? ==> t == s)
            && (ExpireHold(t, i) == (t, Unchanged))
  {
  }

  /** The same for bookings: due means pending payment past its deadline. */
  lemma BookingScanStep(s: State, i: nat)
    requires Invariant(s)
    ensures var (t, reply) := ExpireBooking(s, i);
            && (reply.Accepted? <==> i < |s.bookings| && BookingDue(s.bookings[i], s.now))
            && (reply.Accepted? ==> t.bookings[i].status.BookingExpired? && t.log == s.log + [BookingReturn(i)])
            && (!reply.Accepted? ==> t == s)
            && (ExpireBooking(t, i) == (t, Unchanged))
  {
  }

  /** Over every orderly run, with any number of scanners acting on any ids at any time: the rooms of each
      hold are given back exactly once if it is no longer active and never otherwise, those of each booking
      exactly once if it is marked so, and nothing was expired before its deadline. */
  lemma EveryReturnHappensOnce(cfg: Config, now: int, rows: Table, events: seq<Event>, i: nat)
    requires OrderlyRun(cfg, Start(now, rows), events)
    ensures var s := Run(cfg, Start(now, rows), events);
            && (i < |s.holds| ==>
                  && multiset(s.log)[HoldReturn(i)] == (if s.holds[i].status.Active? then 0 else 1)
                  && (s.holds[i].status.Expired?
                      ==> s.holds[i].releasedAt.Some? && s.holds[i].expiresAt <= s.holds[i].releasedAt.value))
            && (i < |s.bookings| ==>
                  && multiset(s.log)[BookingReturn(i)] == (if s.bookings[i].roomsReturned then 1 else 0)
                  && (s.bookings[i].status.BookingExpired? ==>
                        s.bookings[i].roomsReturned && s.bookings[i].cancelledAt.Some?
                            && s.bookings[i].expiresAt <= s.bookings[i].cancelledAt.value))
  {
    EveryOrderlyRunIsSafe(cfg, now, rows, events);
  }

  // ---- Refund notifications ----

  /** A refund notification that names rooms keeps the inventory right exactly when its booking's rooms have
      not been given back and the notification takes from each row what the booking has there: the code itself
      looks at neither. */
  lemma RefundKeepsExactly(s: State, i: nat, notice: Notice)
    requires Invariant(s) && i < |s.bookings| && s.bookings[i].charged
    requires notice.rooms != [] && notice.checkIn < notice.checkOut
    ensures Invariant(HandleRefundSucceeded(s, i, notice).0)
            <==> !s.bookings[i].roomsReturned && NoticeMatches(s.rows, notice, s.bookings[i])
  {
    if s.bookings[i].roomsReturned {
      ReturnedTwice(s, i, notice);
    } else if NoticeMatches(s.rows, notice, s.bookings[i]) {
      RefundKeeps(s, i, notice);
    } else {
      MismatchUncounts(s, i, notice);
    }
  }

  lemma ReturnedTwice(s: State, i: nat, notice: Notice)
    requires Invariant(s) && i < |s.bookings| && s.bookings[i].charged && s.bookings[i].roomsReturned
    requires notice.rooms != [] && notice.checkIn < notice.checkOut
    ensures !ReturnedOnce(HandleRefundSucceeded(s, i, notice).0)
  {
    var t := HandleRefundSucceeded(s, i, notice).0;
    Logged(s.log, BookingReturn(i), BookingReturn(i));
    assert multiset(t.log)[BookingReturn(i)] == 2;
  }

  lemma MismatchUncounts(s: State, i: nat, notice: Notice)
    requires Counted(s) && i < |s.bookings| && s.bookings[i].charged && !s.bookings[i].roomsReturned
    requires notice.rooms != [] && notice.checkIn < notice.checkOut && !NoticeMatches(s.rows, notice, s.bookings[i])
    ensures !Counted(HandleRefundSucceeded(s, i, notice).0)
  {
    var b, t := s.bookings[i], HandleRefundSucceeded(s, i, notice).0;
    var c :| c in s.rows && Claim(notice.rooms, notice.checkIn, notice.checkOut, c)
        != Claim(b.rooms, b.checkIn, b.checkOut, c);
    assert t.bookings == s.bookings[i := t.bookings[i]];
    SumUpdated(s.bookings, i, t.bookings[i], BookingClaim(c));
    assert c in t.rows && t.rows[c].booked
           == s.rows[c].booked - Claim(notice.rooms, notice.checkIn, notice.checkOut, c);
  }

  /** A notification repeated for a booking takes its rooms from every row a second time. */
  lemma RepeatedRefundTakesTwice(s: State, i: nat, c: Cell)
    requires Invariant(s) && i < |s.bookings| && s.bookings[i].charged && s.bookings[i].roomsReturned && c in s.rows
    ensures var b := s.bookings[i];
            var t := HandleRefundSucceeded(s, i, Notice(b.rooms, b.checkIn, b.checkOut)).0;
            c in t.rows && t.rows[c].booked
                == Sum(t.bookings, BookingClaim(c)) - Claim(b.rooms, b.checkIn, b.checkOut, c)
  {
    var b := s.bookings[i];
    var t := HandleRefundSucceeded(s, i, Notice(b.rooms, b.checkIn, b.checkOut)).0;
    assert BookingMatchesHold(s, b);
    SumSame(t.bookings, s.bookings, BookingClaim(c));
  }
}
