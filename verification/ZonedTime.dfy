/**
 Hotel wall-clock time to UTC, and the cancellation deadline that depends on it.
 Instants are milliseconds; a zone is a function from instants to offsets, and the wall clock of an instant u
 shows u + offset(u).
 */
module ZonedTime {
  import opened Money

  type Zone = int -> int

  function WallClock(zone: Zone, u: int): int {
    u + zone(u)
  }

  /** One correction: read the offset at the current guess, and start again from the wall-clock reading. */
  function Correct(zone: Zone, local: int, guess: int): int {
    local - zone(guess)
  }

  function ToUtc(zone: Zone, local: int): int {
    Correct(zone, local, Correct(zone, local, local))
  }

  /** getUtcDateFromZonedParts. */
  method UtcFromZonedParts(zone: Zone, local: int) returns (utcTime: int)
    ensures utcTime == ToUtc(zone, local)
  {
    utcTime := local;
    for i := 0 to 2
      invariant utcTime == if i == 0 then local else if i == 1 then Correct(zone, local, local) else ToUtc(zone, local)
    {
      var offset := zone(utcTime);
      utcTime := local - offset;
    }
  }

  /** Within `reach` of the wall-clock reading the offset is at most `reach`, and changes at most once. */
  ghost predicate OneChangeNear(zone: Zone, local: int, reach: int, change: int, before: int, after: int) {
    && 0 <= reach && -reach <= before <= reach && -reach <= after <= reach
    && forall u | local - reach <= u <= local + reach :: zone(u) == if u < change then before else after
  }

  /** Some instant shows this wall-clock reading. */
  ghost predicate Exists(zone: Zone, local: int, reach: int) {
    exists u | local - reach <= u <= local + reach :: WallClock(zone, u) == local
  }

  /** Two corrections suffice: whenever some instant shows the wall-clock time, the result is such an instant. */
  lemma TwoCorrectionsSuffice(zone: Zone, local: int, reach: int, change: int, before: int, after: int)
    requires OneChangeNear(zone, local, reach, change, before, after)
    ensures Exists(zone, local, reach) <==> WallClock(zone, ToUtc(zone, local)) == local
  {
  }

  /** A wall-clock time skipped by a forward change of `after - before` is missed by exactly that width, to the
      side that depends on whether the reading, taken as UTC, falls before the change. */
  lemma GapMissedByItsWidth(zone: Zone, local: int, reach: int, change: int, before: int, after: int)
    requires OneChangeNear(zone, local, reach, change, before, after) && !Exists(zone, local, reach)
    ensures before < after
    ensures WallClock(zone, ToUtc(zone, local)) - local == if local < change then before - after else after - before
  {
    var early, late := local - before, local - after;
    assert zone(early) == if early < change then before else after;
    assert zone(late) == if late < change then before else after;
    assert zone(local) == if local < change then before else after;
    assert early < change ==> WallClock(zone, early) == local;
    assert late >= change ==> WallClock(zone, late) == local;
  }

  /** A reading that is shown twice gives the one of its two instants whose offset was read last. */
  lemma OverlapPicksOne(zone: Zone, local: int, reach: int, change: int, before: int, after: int)
    requires OneChangeNear(zone, local, reach, change, before, after)
    requires local - before < change <= local - after
    ensures WallClock(zone, local - before) == local && WallClock(zone, local - after) == local
    ensures ToUtc(zone, local) == if local < change then local - before else local - after
  {
  }

  /** One correction is not enough: 04:00 in a zone that moves from -5 to -4 hours at 07:00 UTC (units are hours). */
  lemma OneCorrectionCanMiss() returns (zone: Zone, local: int)
    ensures OneChangeNear(zone, local, 18, 7, -5, -4) && Exists(zone, local, 18)
    ensures WallClock(zone, Correct(zone, local, local)) != local
    ensures WallClock(zone, ToUtc(zone, local)) == local
  {
    zone := u => if u < 7 then -5 else -4;
    local := 4;
    assert WallClock(zone, 8) == local;
  }

  // ---- The cancellation deadline ----

  /** A cancellation rule; no deadline means that cancelling stays free. */
  datatype Rule = Rule(refundable: bool, hasDeadline: bool, hoursBefore: int, percentBefore: Rate, percentAfter: Rate)

  const HOUR_MS := 60 * 60 * 1000

  predicate WithinFreeWindow(rule: Rule, zone: Zone, checkInLocal: int, now: int) {
    !rule.hasDeadline || now <= ToUtc(zone, checkInLocal) - rule.hoursBefore * HOUR_MS
  }

  /** evaluateCancellationPolicy: the refund in cents for a booking with a structured rule. */
  function RefundAmount(rule: Rule, total: int, zone: Zone, checkInLocal: int, now: int): int {
    if !rule.refundable then 0
    else if WithinFreeWindow(rule, zone, checkInLocal, now) then Share(total, rule.percentBefore)
    else Share(total, rule.percentAfter)
  }

  /** How far ahead of check-in, on the hotel's clock, cancelling stops being free: for a rule with a deadline, the
      refund is by the first percentage exactly while at least the hours named are left until the instant at
      which that clock shows the check-in time, and by the second one after that.  Without a deadline it stays
      by the first, and without the right to a refund there is none. */
  lemma RefundChangesAtDeadline(rule: Rule, total: int, zone: Zone, checkInLocal: int, now: int,
                                reach: int, change: int, before: int, after: int)
    requires OneChangeNear(zone, checkInLocal, reach, change, before, after) && Exists(zone, checkInLocal, reach)
    ensures !rule.refundable ==> RefundAmount(rule, total, zone, checkInLocal, now) == 0
    ensures rule.refundable && !rule.hasDeadline ==>
              RefundAmount(rule, total, zone, checkInLocal, now) == Share(total, rule.percentBefore)
    ensures rule.refundable && rule.hasDeadline ==>
              exists checkIn | WallClock(zone, checkIn) == checkInLocal ::
                RefundAmount(rule, total, zone, checkInLocal, now)
                == Share(total, if checkIn - now >= rule.hoursBefore * 60 * 60 * 1000 then rule.percentBefore
                                else rule.percentAfter)
  {
    TwoCorrectionsSuffice(zone, checkInLocal, reach, change, before, after);
    var checkIn := ToUtc(zone, checkInLocal);
    assert rule.hoursBefore * HOUR_MS == rule.hoursBefore * 60 * 60 * 1000;
    assert WallClock(zone, checkIn) == checkInLocal;
  }

  predicate NotAbove(a: Rate, b: Rate) {
    a.num * b.den <= b.num * a.den
  }

  /** If the percentage after the deadline is not the larger one, waiting never increases the refund, and if
      both are at most 100% the refund never exceeds what was paid. */
  lemma WaitingNeverPays(rule: Rule, total: int, zone: Zone, checkInLocal: int, now: int, later: int)
    requires 0 <= total && now <= later
    requires AtMostWhole(rule.percentBefore) && NotAbove(rule.percentAfter, rule.percentBefore)
    ensures 0 <= RefundAmount(rule, total, zone, checkInLocal, later)
              <= RefundAmount(rule, total, zone, checkInLocal, now) <= total
  {
    var p, q := rule.percentBefore, rule.percentAfter;
    ShareWithin(total, p);
    ShareRateMonotone(total, q, p);
    ShareOfZero(q);
    ShareMonotone(0, total, q);
  }

  lemma ShareRateMonotone(a: int, q: Rate, p: Rate)
    requires 0 <= a && NotAbove(q, p)
    ensures Share(a, q) <= Share(a, p)
  {
    var x, y := Share(a, q), Share(a, p);
    ShareBounds(a, q);
    ShareBounds(a, p);
    if x > y {
      RateGap(a, q.num, q.den, p.num, p.den, x, y);
    }
  }

  /** n / d at most m / e cannot round, times a, to x above y. */
  lemma RateGap(a: int, n: int, d: int, m: int, e: int, x: int, y: int)
    requires 0 <= a && d > 0 && e > 0 && n * e <= m * d
    requires 2 * d * x <= 2 * (a * n) + d && 2 * (a * m) + e < 2 * e * y + 2 * e
    ensures x <= y
  {
    MulLe(a, n * e, m * d);
    BelowScaled(a, n, d, e, x);
    AboveScaled(a, m, e, d, y);
    if x >= y + 1 {
      MulLe(2 * d * e, y + 1, x);
    }
  }

  lemma BelowScaled(a: int, n: int, d: int, e: int, x: int)
    requires 0 <= e && 2 * d * x <= 2 * (a * n) + d
    ensures 2 * d * e * x <= 2 * (a * (n * e)) + d * e
  {
    MulLe(e, 2 * d * x, 2 * (a * n) + d);
    assert e * (2 * d * x) == 2 * d * e * x;
    assert e * (2 * (a * n) + d) == 2 * (a * (n * e)) + d * e;
  }

  lemma AboveScaled(a: int, m: int, e: int, d: int, y: int)
    requires 0 < d && 2 * (a * m) + e < 2 * e * y + 2 * e
    ensures 2 * (a * (m * d)) + d * e < 2 * d * e * (y + 1)
  {
    MulLt(d, 2 * (a * m) + e, 2 * e * y + 2 * e);
    assert d * (2 * e * y + 2 * e) == 2 * d * e * (y + 1);
    assert d * (2 * (a * m) + e) == 2 * (a * (m * d)) + d * e;
  }
}
