/** The periodic scans: take the oldest overdue rows up to a limit, and expire each under its own lock. */
module ExpiryScans {
  import Money
  import opened Reservations
  import ReservationLaws

  /** What a query `WHERE due ORDER BY deadline ASC LIMIT limit` may return; ties come in any order. */
  ghost predicate IsPage(due: map<nat, int>, page: seq<nat>, limit: nat) {
    && (forall i | 0 <= i < |page| :: page[i] in due)
    && (forall i, j | 0 <= i < j < |page| :: page[i] != page[j] && due[page[i]] <= due[page[j]])
    && |page| == (if limit < |due| then limit else |due|)
    && (forall id, i | id in due && id !in page && 0 <= i < |page| :: due[page[i]] <= due[id])
  }

  function DueHolds(s: State): map<nat, int> {
    map i: nat | i < |s.holds| && HoldDue(s.holds[i], s.now) :: s.holds[i].expiresAt
  }

  function DueBookings(s: State): map<nat, int> {
    map i: nat | i < |s.bookings| && BookingDue(s.bookings[i], s.now) :: s.bookings[i].expiresAt
  }

  predicate IsEarliest(due: map<nat, int>, id: nat) {
    id in due && forall k | k in due :: due[id] <= due[k]
  }

  lemma {:induction false} Earliest(due: map<nat, int>) returns (id: nat)
    requires due != map[]
    ensures IsEarliest(due, id)
    decreases |due.Keys|
  {
    id :| id in due;
    var rest := due - {id};
    assert rest.Keys == due.Keys - {id};
    assert forall k | k in due && k != id :: k in rest && rest[k] == due[k];
    if rest != map[] {
      var best := Earliest(rest);
      if due[best] < due[id] {
        id := best;
      }
    }
  }

  function Elements(ids: seq<nat>): set<nat> {
    set i | 0 <= i < |ids| :: ids[i]
  }

  lemma ElementsAppended(ids: seq<nat>, x: nat)
    ensures Elements(ids + [x]) == Elements(ids) + {x}
  {
    var all := ids + [x];
    forall y | y in Elements(ids) + {x} ensures y in Elements(all) {
      if y in Elements(ids) {
        var i :| 0 <= i < |ids| && ids[i] == y;
        assert all[i] == y;
      } else {
        assert all[|ids|] == y;
      }
    }
  }

  ghost predicate Ordered(due: map<nat, int>, page: seq<nat>) {
    && (forall i | 0 <= i < |page| :: page[i] in due)
    && (forall i, j | 0 <= i < j < |page| :: page[i] != page[j] && due[page[i]] <= due[page[j]])
  }

  /** The page so far: the oldest entries taken out of `due`, in order, with `left` still to choose from. */
  ghost predicate Partial(due: map<nat, int>, page: seq<nat>, left: map<nat, int>) {
    && Ordered(due, page)
    && left == due - Elements(page)
    && (forall i, id | 0 <= i < |page| && id in left :: due[page[i]] <= due[id])
    && |left.Keys| + |page| == |due.Keys|
  }

  lemma TakeNext(due: map<nat, int>, page: seq<nat>, left: map<nat, int>, next: nat)
    requires Partial(due, page, left) && IsEarliest(left, next)
    ensures Partial(due, page + [next], left - {next})
    ensures |(left - {next}).Keys| < |left.Keys|
  {
    assert (left - {next}).Keys == left.Keys - {next};
    TakeNextOrdered(due, page, left, next);
    TakeNextLeft(due, page, left, next);
    TakeNextEarlier(due, page, left, next);
  }

  lemma TakeNextLeft(due: map<nat, int>, page: seq<nat>, left: map<nat, int>, next: nat)
    requires left == due - Elements(page)
    ensures left - {next} == due - Elements(page + [next])
  {
    ElementsAppended(page, next);
  }

  lemma TakeNextEarlier(due: map<nat, int>, page: seq<nat>, left: map<nat, int>, next: nat)
    requires Partial(due, page, left) && IsEarliest(left, next)
    ensures forall i, id | 0 <= i < |page| + 1 && id in left - {next} :: due[(page + [next])[i]] <= due[id]
  {
  }

  lemma TakeNextOrdered(due: map<nat, int>, page: seq<nat>, left: map<nat, int>, next: nat)
    requires Partial(due, page, left) && IsEarliest(left, next)
    ensures Ordered(due, page + [next])
  {
  }

  lemma PageComplete(due: map<nat, int>, page: seq<nat>, left: map<nat, int>, limit: nat)
    requires Partial(due, page, left) && |page| <= limit && (|page| == limit || left == map[])
    ensures IsPage(due, page, limit)
  {
  }

  /** findExpiredActive and findExpiredPending. */
  method FindOldest(due: map<nat, int>, limit: nat) returns (page: seq<nat>)
    ensures IsPage(due, page, limit)
  {
    page := [];
    var left := due;
    while |page| < limit && left != map[]
      invariant Partial(due, page, left) && |page| <= limit
      decreases |left.Keys|
    {
      ghost var earliest := Earliest(left);
      var next :| IsEarliest(left, next);
      TakeNext(due, page, left, next);
      page, left := page + [next], left - {next};
    }
    PageComplete(due, page, left, limit);
  }

  /** One scan over a list of hold ids, which may be stale by the time each is reached. */
  function ScanHolds(s: State, ids: seq<nat>): State {
    if ids == [] then s else ExpireHold(ScanHolds(s, ids[..|ids| - 1]), ids[|ids| - 1]).0
  }

  function ScanBookings(s: State, ids: seq<nat>): State {
    if ids == [] then s else ExpireBooking(ScanBookings(s, ids[..|ids| - 1]), ids[|ids| - 1]).0
  }

  lemma ScanHoldsNext(s: State, ids: seq<nat>, k: nat)
    requires k < |ids|
    ensures ScanHolds(s, ids[..k + 1]) == ExpireHold(ScanHolds(s, ids[..k]), ids[k]).0
  {
    assert ids[..k + 1][..k] == ids[..k];
  }

  /** How many of the listed bookings a scan expires. */
  function BookingsExpired(s: State, ids: seq<nat>): nat {
    if ids == [] then 0
    else
      var n := |ids| - 1;
      BookingsExpired(s, ids[..n]) + if ExpireBooking(ScanBookings(s, ids[..n]), ids[n]).1.Accepted? then 1 else 0
  }

  lemma ScanBookingsNext(s: State, ids: seq<nat>, k: nat)
    requires k < |ids|
    ensures var before := ScanBookings(s, ids[..k]);
            && ScanBookings(s, ids[..k + 1]) == ExpireBooking(before, ids[k]).0
            && BookingsExpired(s, ids[..k + 1]) == BookingsExpired(s, ids[..k])
               + if ExpireBooking(before, ids[k]).1.Accepted? then 1 else 0
  {
    assert ids[..k + 1][..k] == ids[..k];
  }

  /** Each of them gives its rooms back once. */
  lemma {:induction false} ExpiredGiveBack(s: State, ids: seq<nat>)
    requires ReservationLaws.Invariant(s)
    ensures |ScanBookings(s, ids).log| == |s.log| + BookingsExpired(s, ids)
  {
    if ids != [] {
      var n := |ids| - 1;
      ExpiredGiveBack(s, ids[..n]);
      ScanKeepsInvariant(s, ids[..n]);
      ReservationLaws.BookingScanStep(ScanBookings(s, ids[..n]), ids[n]);
    }
  }

  /** A scan is a run of single expiry steps, so it inherits every law of orderly runs. */
  lemma {:induction false} ScanKeepsInvariant(s: State, ids: seq<nat>)
    requires ReservationLaws.Invariant(s)
    ensures ReservationLaws.Invariant(ScanHolds(s, ids)) && ReservationLaws.Invariant(ScanBookings(s, ids))
  {
    if ids != [] {
      var n := |ids| - 1;
      ScanKeepsInvariant(s, ids[..n]);
      ReservationLaws.ExpireHoldKeeps(ScanHolds(s, ids[..n]), ids[n]);
      ReservationLaws.ExpireBookingKeeps(ScanBookings(s, ids[..n]), ids[n]);
    }
  }

  // ---- What scans do to the backlog ----

  /** The two scanners. */
  datatype Scanner = OfHolds | OfBookings

  function Due(k: Scanner, s: State): map<nat, int> {
    if k.OfHolds? then DueHolds(s) else DueBookings(s)
  }

  /** Still running though its deadline has come. */
  predicate Overdue(k: Scanner, s: State, id: nat) {
    if k.OfHolds? then id < |s.holds| && s.holds[id].status.Active? && s.holds[id].expiresAt <= s.now
    else id < |s.bookings| && s.bookings[id].status.PendingPayment? && s.bookings[id].expiresAt <= s.now
  }

  function Deadline(k: Scanner, s: State, id: nat): int
    requires Overdue(k, s, id)
  {
    if k.OfHolds? then s.holds[id].expiresAt else s.bookings[id].expiresAt
  }

  /** The query finds exactly the overdue rows, each with its deadline. */
  lemma DueExactly(k: Scanner, s: State)
    ensures forall id: nat :: id in Due(k, s) <==> Overdue(k, s, id)
    ensures forall id | id in Due(k, s) :: Due(k, s)[id] == Deadline(k, s, id)
  {
  }

  function Scan(k: Scanner, s: State, ids: seq<nat>): State {
    if k.OfHolds? then ScanHolds(s, ids) else ScanBookings(s, ids)
  }

  function ExpireOne(k: Scanner, s: State, i: nat): State {
    if k.OfHolds? then ExpireHold(s, i).0 else ExpireBooking(s, i).0
  }

  /** No row would be refused by releaseHoldRooms or releaseRooms, as in every reachable state. */
  ghost predicate Releasable(k: Scanner, s: State) {
    if k.OfHolds? then forall i | 0 <= i < |s.holds| :: s.holds[i].rooms != []
    else forall i | 0 <= i < |s.bookings| :: s.bookings[i].checkIn < s.bookings[i].checkOut
  }

  lemma InvariantReleasable(k: Scanner, s: State)
    requires ReservationLaws.Invariant(s)
    ensures Releasable(k, s)
  {
    forall i | 0 <= i < |s.bookings| ensures s.bookings[i].checkIn < s.bookings[i].checkOut {
      assert ReservationLaws.BookingMatchesHold(s, s.bookings[i]);
    }
  }

  /** After a scan, exactly the listed rows have left the set of overdue ones. */
  lemma {:induction false} ScanClears(k: Scanner, s: State, ids: seq<nat>)
    requires Releasable(k, s)
    ensures Releasable(k, Scan(k, s, ids)) && Scan(k, s, ids).now == s.now
    ensures Due(k, Scan(k, s, ids)) == Due(k, s) - Elements(ids)
  {
    if ids == [] {
      assert Due(k, s) - {} == Due(k, s);
    } else {
      var n := |ids| - 1;
      var before := Scan(k, s, ids[..n]);
      ScanSnoc(k, s, ids);
      ScanClears(k, s, ids[..n]);
      ExpireClears(k, before, ids[n]);
      RemoveBoth(Due(k, s), ids);
    }
  }

  lemma ScanSnoc(k: Scanner, s: State, ids: seq<nat>)
    requires ids != []
    ensures Scan(k, s, ids) == ExpireOne(k, Scan(k, s, ids[..|ids| - 1]), ids[|ids| - 1])
  {
  }

  lemma RemoveBoth(due: map<nat, int>, ids: seq<nat>)
    requires ids != []
    ensures due - Elements(ids) == due - Elements(ids[..|ids| - 1]) - {ids[|ids| - 1]}
  {
    var n := |ids| - 1;
    ElementsAppended(ids[..n], ids[n]);
    assert ids[..n] + [ids[n]] == ids;
  }

  lemma ExpireClears(k: Scanner, s: State, i: nat)
    requires Releasable(k, s)
    ensures var t := ExpireOne(k, s, i);
            Releasable(k, t) && t.now == s.now && Due(k, t) == Due(k, s) - {i}
  {
    if k.OfHolds? {
      HoldCleared(s, i);
    } else {
      BookingCleared(s, i);
    }
  }

  lemma HoldCleared(s: State, i: nat)
    requires Releasable(OfHolds, s)
    ensures var t := ExpireHold(s, i).0; Releasable(OfHolds, t) && t.now == s.now && DueHolds(t) == DueHolds(s) - {i}
  {
  }

  lemma BookingCleared(s: State, i: nat)
    requires Releasable(OfBookings, s)
    ensures var t := ExpireBooking(s, i).0;
            Releasable(OfBookings, t) && t.now == s.now && DueBookings(t) == DueBookings(s) - {i}
  {
  }

  lemma {:induction false} DistinctElements(ids: seq<nat>)
    requires forall i, j | 0 <= i < j < |ids| :: ids[i] != ids[j]
    ensures |Elements(ids)| == |ids|
  {
    if ids != [] {
      var n := |ids| - 1;
      DistinctElements(ids[..n]);
      ElementsAppended(ids[..n], ids[n]);
      assert ids[..n] + [ids[n]] == ids;
      assert ids[n] !in Elements(ids[..n]);
    } else {
      assert Elements(ids) == {};
    }
  }

  /** A scan with limit L, nothing else happening, leaves n - min(L, n) overdue rows, and those it took were
      the oldest. */
  lemma OneScan(k: Scanner, s: State, page: seq<nat>, limit: nat)
    requires Releasable(k, s) && IsPage(Due(k, s), page, limit)
    ensures var t, n := Scan(k, s, page), |Due(k, s)|;
            && Releasable(k, t)
            && |Due(k, t)| == (if limit < n then n - limit else 0)
            && (forall left, taken | left in Due(k, t) && taken in page ::
                  Overdue(k, s, left) && Overdue(k, s, taken) && Deadline(k, s, taken) <= Deadline(k, s, left))
  {
    var due, t := Due(k, s), Scan(k, s, page);
    DueExactly(k, s);
    ScanClears(k, s, page);
    DistinctElements(page);
    assert Elements(page) <= due.Keys;
    assert Due(k, t).Keys == due.Keys - Elements(page);
    forall left | left in Due(k, t) ensures left in due && left !in page {
      assert left in page ==> left in Elements(page);
    }
  }

  /** Scans one after another, each from a fresh query. */
  function Scans(k: Scanner, s: State, pages: seq<seq<nat>>): State {
    if pages == [] then s else Scan(k, Scans(k, s, pages[..|pages| - 1]), pages[|pages| - 1])
  }

  ghost predicate FreshPages(k: Scanner, s: State, pages: seq<seq<nat>>, limit: nat) {
    pages != [] ==>
      && FreshPages(k, s, pages[..|pages| - 1], limit)
      && IsPage(Due(k, Scans(k, s, pages[..|pages| - 1])), pages[|pages| - 1], limit)
  }

  lemma {:induction false} BacklogAfter(k: Scanner, s: State, pages: seq<seq<nat>>, limit: nat)
    requires Releasable(k, s) && FreshPages(k, s, pages, limit)
    ensures var n := |Due(k, s)|;
            && Releasable(k, Scans(k, s, pages))
            && |Due(k, Scans(k, s, pages))| == (if |pages| * limit < n then n - |pages| * limit else 0)
  {
    if pages != [] {
      var m := |pages| - 1;
      BacklogAfter(k, s, pages[..m], limit);
      OneScan(k, Scans(k, s, pages[..m]), pages[m], limit);
      assert |pages| * limit == m * limit + limit;
    } else {
      assert |pages| * limit == 0;
    }
  }

  /** At a fixed clock, repeated scans with a positive limit L clear n overdue rows, holds or bookings, after
      exactly ceil(n / L) scans: no earlier, and never later. */
  lemma BacklogClearsExactly(k: Scanner, s: State, pages: seq<seq<nat>>, limit: nat)
    requires Releasable(k, s) && FreshPages(k, s, pages, limit) && limit > 0
    ensures Due(k, Scans(k, s, pages)) == map[] <==> (|Due(k, s)| + limit - 1) / limit <= |pages|
  {
    var n := |Due(k, s)|;
    BacklogAfter(k, s, pages, limit);
    CeilAtMost(n, limit, |pages|);
    assert |Due(k, Scans(k, s, pages))| == 0 <==> Due(k, Scans(k, s, pages)) == map[];
  }

  lemma CeilAtMost(n: nat, d: nat, k: nat)
    requires d > 0
    ensures (n + d - 1) / d <= k <==> n <= k * d
  {
    var q := (n + d - 1) / d;
    assert n + d - 1 == d * q + (n + d - 1) % d;
    if q <= k {
      Money.MulLe(d, q, k);
    } else {
      Money.MulLe(d, k + 1, q);
      assert d * (k + 1) == k * d + d;
    }
  }
}
