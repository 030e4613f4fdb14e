/**
 Cents and rates.  Amounts are integer cents, so the services' `roundMoney` is the identity on them and
 rounding happens only where a rate is applied.  A rate is an exact fraction; `Math.round` rounds halves up.
 */
module Money {

  datatype Fraction = Fraction(num: nat, den: nat)

  type Rate = r: Fraction | r.den > 0 witness Fraction(0, 1)

  /** `Math.round(n / d)`: the floor of n / d + 1/2. */
  function RoundDiv(n: int, d: int): int
    requires d > 0
  {
    (2 * n + d) / (2 * d)
  }

  /** `roundMoney(amount * rate)`, in cents. */
  function Share(amount: int, r: Rate): int {
    RoundDiv(amount * r.num, r.den)
  }

  /** The raw configured rate: a number above 1 is a percentage, a non-positive one is no rate at all. */
  function NormalizeRate(num: int, den: nat): (r: Rate)
    requires den > 0
  {
    if num <= 0 then Fraction(0, 1)
    else if num > den then Fraction(num, 100 * den)
    else Fraction(num, den)
  }

  predicate AtMostWhole(r: Rate) {
    r.num <= r.den
  }

  /** After normalisation a rate is at most 100% exactly when the raw number was at most 100. */
  lemma NormalizedAtMostWhole(num: int, den: nat)
    requires den > 0
    ensures AtMostWhole(NormalizeRate(num, den)) <==> num <= 100 * den
  {
  }

  /** The rounded quotient is the one integer within half a unit of n / d, halves going up. */
  lemma RoundDivIs(n: int, d: int, k: int)
    requires d > 0
    ensures RoundDiv(n, d) == k <==> 2 * d * k <= 2 * n + d < 2 * d * k + 2 * d
  {
    var x, y := 2 * n + d, 2 * d;
    var q := RoundDiv(n, d);
    assert x == y * q + x % y && 0 <= x % y < y;
    if y * k <= x < y * k + y {
      if k < q {
        MulLe(y, k + 1, q);
      } else if q < k {
        MulLe(y, q + 1, k);
      }
    }
  }

  lemma MulLe(y: int, a: int, b: int)
    requires 0 <= y && a <= b
    ensures y * a <= y * b
  {
  }

  /** What rounding means for a share: 2·den·share is within den of twice the exact product. */
  lemma ShareBounds(a: int, r: Rate)
    ensures 2 * r.den * Share(a, r) <= 2 * (a * r.num) + r.den < 2 * r.den * Share(a, r) + 2 * r.den
  {
  }

  lemma ShareOfZero(r: Rate)
    ensures Share(0, r) == 0
  {
  }

  /** Which rate a configured number n / d stands for: itself up to 1, a percentage above 1, and none at all if it is
      not positive. */
  lemma NormalizedRateIs(num: int, den: nat)
    requires den > 0
    ensures var r := NormalizeRate(num, den);
            && (0 < num <= den ==> r.num * den == num * r.den)
            && (num > den ==> 100 * r.num * den == num * r.den)
            && (num <= 0 ==> forall a :: Share(a, r) == 0)
  {
    if num <= 0 {
      forall a ensures Share(a, NormalizeRate(num, den)) == 0 {
        RoundDivIs(a * 0, 1, 0);
      }
    }
  }

  /** The two rates earn the same fee on every amount. */
  ghost predicate SameFees(r: Rate, q: Rate) {
    forall a :: Share(a, r) == Share(a, q)
  }

  /** A percentage and its fraction, p and p / 100, earn the same fee on every amount exactly for p up to 100 other
      than 1: the number 1 is read as the whole, and a fraction above 1 as a percentage again. */
  lemma PercentIsFractionExactly(p: nat)
    ensures SameFees(NormalizeRate(p, 1), NormalizeRate(p, 100)) <==> p != 1 && p <= 100
  {
    if p == 1 {
      WholeIsNoPercent();
    } else if p > 100 {
      PercentOfPercent(p);
    } else {
      PercentSame(p);
    }
  }

  lemma PercentSame(p: nat)
    requires p != 1 && p <= 100
    ensures NormalizeRate(p, 1) == NormalizeRate(p, 100)
  {
  }

  lemma WholeIsNoPercent()
    ensures !SameFees(NormalizeRate(1, 1), NormalizeRate(1, 100))
  {
    FeesDiffer(1);
    UpToOne(1, 1);
    UpToOne(1, 100);
  }

  lemma UpToOne(num: nat, den: nat)
    requires 0 < num <= den
    ensures NormalizeRate(num, den) == Fraction(num, den)
  {
  }

  lemma PercentOfPercent(p: nat)
    requires p > 100
    ensures !SameFees(NormalizeRate(p, 1), NormalizeRate(p, 100))
  {
    FeesDiffer(p);
    AboveOne(p);
  }

  lemma AboveOne(p: nat)
    requires p > 100
    ensures NormalizeRate(p, 1) == Fraction(p, 100) && NormalizeRate(p, 100) == Fraction(p, 10000)
  {
  }

  /** At a hundredth of a rate the fee is another. */
  lemma FeesDiffer(p: nat)
    requires p > 0
    ensures !SameFees(Fraction(p, 1), Fraction(p, 100))
    ensures !SameFees(Fraction(p, 100), Fraction(p, 10000))
  {
    TenThousandTimes(p);
    assert Share(10000, Fraction(p, 1)) != Share(10000, Fraction(p, 100));
    assert Share(10000, Fraction(p, 100)) != Share(10000, Fraction(p, 10000));
  }

  lemma TenThousandTimes(p: nat)
    ensures Share(10000, Fraction(p, 1)) == 10000 * p
    ensures Share(10000, Fraction(p, 100)) == 100 * p
    ensures Share(10000, Fraction(p, 10000)) == p
  {
  }

  /** If 2·d·gap < 2·d then gap is at most 0. */
  lemma CancelFactor(d: int, gap: int, limit: int)
    requires d > 0 && 2 * d * gap < 2 * d * limit
    ensures gap < limit
  {
    if gap >= limit {
      MulLe(2 * d, limit, gap);
    }
  }

  /** A larger amount never has the smaller share. */
  lemma ShareMonotone(a: int, b: int, r: Rate)
    requires a <= b
    ensures Share(a, r) <= Share(b, r)
  {
    var x, y := Share(a, r), Share(b, r);
    ShareBounds(a, r);
    ShareBounds(b, r);
    MulLe(r.num, a, b);
    assert 2 * r.den * (x - y) == 2 * r.den * x - 2 * r.den * y;
    CancelFactor(r.den, x - y, 1);
  }

  /** At a rate of at most 100%, neither does it have the smaller remainder. */
  lemma RemainderMonotone(a: int, b: int, r: Rate)
    requires a <= b && AtMostWhole(r)
    ensures a - Share(a, r) <= b - Share(b, r)
  {
    var x, y, d := Share(a, r), Share(b, r), r.den;
    ShareBounds(a, r);
    ShareBounds(b, r);
    assert (b - a) * r.num <= (b - a) * d by {
      MulLe(b - a, r.num, d);
    }
    assert b * r.num - a * r.num == (b - a) * r.num;
    assert 2 * d * (y - x - (b - a)) == 2 * d * y - 2 * d * x - 2 * ((b - a) * d);
    CancelFactor(d, y - x - (b - a), 1);
  }

  /** A share lies between nothing and the whole exactly as one expects. */
  lemma ShareWithin(a: int, r: Rate)
    requires 0 <= a && AtMostWhole(r)
    ensures 0 <= Share(a, r) <= a
  {
    ShareOfZero(r);
    ShareMonotone(0, a, r);
    RemainderMonotone(0, a, r);
  }

  /** Splitting an amount in two moves the share by at most one cent. */
  lemma ShareSplit(a: int, b: int, r: Rate)
    ensures -1 <= Share(a + b, r) - Share(a, r) - Share(b, r) <= 1
  {
    var s, x, y, d := Share(a + b, r), Share(a, r), Share(b, r), r.den;
    ShareBounds(a, r);
    ShareBounds(b, r);
    ShareBounds(a + b, r);
    assert (a + b) * r.num == a * r.num + b * r.num;
    assert 2 * d * (s - x - y) == 2 * d * s - 2 * d * x - 2 * d * y;
    assert 2 * d * (x + y - s) == 2 * d * x + 2 * d * y - 2 * d * s;
    CancelFactor(d, s - x - y, 2);
    CancelFactor(d, x + y - s, 2);
  }

  function Sum(parts: seq<int>): int {
    if parts == [] then 0 else Sum(parts[..|parts| - 1]) + parts[|parts| - 1]
  }

  function SumOfShares(parts: seq<int>, r: Rate): int {
    if parts == [] then 0 else SumOfShares(parts[..|parts| - 1], r) + Share(parts[|parts| - 1], r)
  }

  /** The exact form of the drift bound: each part contributes at most half a cent of rounding. */
  lemma {:induction false} SharesOfParts(parts: seq<int>, r: Rate)
    ensures -(|parts| * r.den) <= 2 * r.den * SumOfShares(parts, r) - 2 * (Sum(parts) * r.num) <= |parts| * r.den
  {
    if parts == [] {
    } else {
      var init, last := parts[..|parts| - 1], parts[|parts| - 1];
      SharesOfParts(init, r);
      ShareBounds(last, r);
      DriftStep(|init|, r.den, SumOfShares(init, r), Share(last, r), Sum(init), last, r.num);
    }
  }

  lemma DriftStep(k: nat, d: int, x: int, y: int, a: int, b: int, n: int)
    requires -(k * d) <= 2 * d * x - 2 * (a * n) <= k * d
    requires 2 * d * y <= 2 * (b * n) + d < 2 * d * y + 2 * d
    ensures -((k + 1) * d) <= 2 * d * (x + y) - 2 * ((a + b) * n) <= (k + 1) * d
  {
    assert 2 * d * (x + y) == 2 * d * x + 2 * d * y;
    assert (a + b) * n == a * n + b * n;
    assert (k + 1) * d == k * d + d;
  }

  /** n parts of one amount drift from the share of the whole by at most (n + 1) / 2 cents. */
  lemma DriftOfParts(parts: seq<int>, r: Rate)
    ensures -(|parts| + 1) <= 2 * (SumOfShares(parts, r) - Share(Sum(parts), r)) <= |parts| + 1
  {
    var n, x, y, d := |parts|, SumOfShares(parts, r), Share(Sum(parts), r), r.den;
    SharesOfParts(parts, r);
    ShareBounds(Sum(parts), r);
    DriftCancel(n, x, y, d, Sum(parts) * r.num);
  }

  /** Two roundings of one exact quantity p / d, one of n terms and one of a single term, compared. */
  lemma DriftCancel(n: nat, x: int, y: int, d: int, p: int)
    requires d > 0
    requires -(n * d) <= 2 * d * x - 2 * p <= n * d
    requires -d <= 2 * d * y - 2 * p <= d
    ensures -(n + 1) <= 2 * (x - y) <= n + 1
  {
    var g := 2 * (x - y);
    assert 2 * d * x - 2 * d * y == d * g;
    assert n * d + d == d * (n + 1) == -(d * -(n + 1));
    if g > n + 1 {
      MulLt(d, n + 1, g);
    }
    if g < -(n + 1) {
      MulLt(d, g, -(n + 1));
    }
  }

  lemma MulLt(y: int, a: int, b: int)
    requires 0 < y && a < b
    ensures y * a < y * b
  {
  }
}
