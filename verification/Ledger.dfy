/** The double-entry ledger: balanced entry groups, posted at most once per group key.  One currency. */
module Ledger {
  import opened Common
  import opened Money

  datatype Account = PlatformCash | PlatformRevenue | HotelPayable(hotel: nat)

  datatype Side = Debit | Credit

  datatype Line = Line(account: Account, side: Side, amount: int) {
    /** Debits count positive. */
    function Signed(): int {
      if side.Debit? then amount else -amount
    }
  }

  /** The keys `payment_succeeded:<id>`, `refund_succeeded:<id>` and `payout_paid:<id>`. */
  datatype GroupKey = PaymentSucceeded(tx: nat) | RefundSucceeded(refund: nat) | PayoutPaid(payout: nat)

  datatype Entry = Entry(group: GroupKey, line: Line)

  type Books = seq<Entry>

  function Kept(lines: seq<Line>): seq<Line> {
    if lines == [] then []
    else
      var last := lines[|lines| - 1];
      var kept := Kept(lines[..|lines| - 1]);
      if last.amount > 0 then kept + [last] else kept
  }

  function SideTotal(lines: seq<Line>, side: Side): int {
    if lines == [] then 0
    else
      var last := lines[|lines| - 1];
      SideTotal(lines[..|lines| - 1], side) + (if last.side == side then last.amount else 0)
  }

  predicate Balanced(lines: seq<Line>) {
    var debits, credits := SideTotal(lines, Debit), SideTotal(lines, Credit);
    debits > 0 && credits > 0 && debits == credits
  }

  function Tagged(key: GroupKey, lines: seq<Line>): Books {
    seq(|lines|, i requires 0 <= i < |lines| => Entry(key, lines[i]))
  }

  /** findByEntryGroupKey. */
  function EntriesOf(books: Books, key: GroupKey): seq<Line> {
    if books == [] then []
    else
      var last := books[|books| - 1];
      var earlier := EntriesOf(books[..|books| - 1], key);
      if last.group == key then earlier + [last.line] else earlier
  }

  /** postBalancedEntries: an existing group is returned as it is, otherwise the positive lines are
      appended if they balance. */
  function Post(books: Books, key: GroupKey, lines: seq<Line>): Result<Books> {
    if EntriesOf(books, key) != [] then Ok(books)
    else if Balanced(Kept(lines)) then Ok(books + Tagged(key, Kept(lines)))
    else Err(NotBalanced)
  }

  function PaymentLines(amount: int, hotel: nat, rate: Rate): seq<Line> {
    var fee := Share(amount, rate);
    [Line(PlatformCash, Debit, amount),
     Line(HotelPayable(hotel), Credit, amount - fee),
     Line(PlatformRevenue, Credit, fee)]
  }

  function RefundLines(amount: int, hotel: nat, rate: Rate): seq<Line> {
    var fee := Share(amount, rate);
    [Line(HotelPayable(hotel), Debit, amount - fee),
     Line(PlatformRevenue, Debit, fee),
     Line(PlatformCash, Credit, amount)]
  }

  function PayoutLines(amount: int, hotel: nat): seq<Line> {
    [Line(HotelPayable(hotel), Debit, amount), Line(PlatformCash, Credit, amount)]
  }

  class LedgerStore {
    var entries: Books
    var accounts: set<Account>

    constructor ()
      ensures entries == [] && accounts == {}
    {
      entries, accounts := [], {};
    }

    ghost predicate Valid()
      reads this
    {
      forall i | 0 <= i < |entries| :: entries[i].line.account in accounts
    }

    /** Posts a group; on failure the surrounding transaction leaves nothing behind. */
    method PostBalancedEntries(key: GroupKey, lines: seq<Line>) returns (ok: bool)
      requires Valid()
      modifies this
      ensures Valid()
      ensures ok <==> Post(old(entries), key, lines).Ok?
      ensures entries == if ok then Post(old(entries), key, lines).value else old(entries)
      ensures !ok ==> accounts == old(accounts)
    {
      if EntriesOf(entries, key) != [] {
        return true;
      }
      var kept := Kept(lines);
      if !Balanced(kept) {
        return false;
      }
      var created: Books := [];
      for index := 0 to |kept|
        invariant entries == old(entries) && Valid()
        invariant created == Tagged(key, kept)[..index]
        invariant forall i | 0 <= i < |created| :: created[i].line.account in accounts
        invariant old(accounts) <= accounts
      {
        FindOrCreateAccount(kept[index].account);
        created := created + [Entry(key, kept[index])];
      }
      entries := entries + created;
      ok := true;
    }

    method FindOrCreateAccount(account: Account)
      modifies this`accounts
      ensures accounts == old(accounts) + {account}
    {
      if account !in accounts {
        accounts := accounts + {account};
      }
    }
  }

  // ---- Posting and reading back ----

  lemma {:induction false} EntriesOfAppended(books: Books, key: GroupKey, lines: seq<Line>, k: GroupKey)
    ensures EntriesOf(books + Tagged(key, lines), k)
            == if k == key then EntriesOf(books, k) + lines else EntriesOf(books, k)
  {
    var all := books + Tagged(key, lines);
    if lines == [] {
      assert all == books;
    } else {
      var init := lines[..|lines| - 1];
      assert all[..|all| - 1] == books + Tagged(key, init);
      assert lines == init + [lines[|lines| - 1]];
      EntriesOfAppended(books, key, init, k);
    }
  }

  /** A first posting files exactly the kept lines under its key and touches no other group; posting under
      the same key again, whatever the lines, changes nothing. */
  lemma PostOnce(books: Books, key: GroupKey, lines: seq<Line>, again: seq<Line>, other: GroupKey)
    requires EntriesOf(books, key) == [] && Post(books, key, lines).Ok?
    ensures var books' := Post(books, key, lines).value;
            && EntriesOf(books', key) == Kept(lines) != []
            && (other != key ==> EntriesOf(books', other) == EntriesOf(books, other))
            && Post(books', key, again) == Ok(books')
  {
    EntriesOfAppended(books, key, Kept(lines), key);
    EntriesOfAppended(books, key, Kept(lines), other);
    assert Kept(lines) != [];
  }

  // ---- When a fee split is accepted ----

  lemma TotalsOfThree(a: Line, b: Line, c: Line)
    ensures forall side ::
              SideTotal(Kept([a, b, c]), side) == PositiveOn(a, side) + PositiveOn(b, side) + PositiveOn(c, side)
  {
    KeptSnoc([a, b], c);
    KeptSnoc([a], b);
    KeptSnoc([], a);
    assert [a, b] + [c] == [a, b, c] && [a] + [b] == [a, b] && [] + [a] == [a];
    forall side
      ensures SideTotal(Kept([a, b, c]), side) == PositiveOn(a, side) + PositiveOn(b, side) + PositiveOn(c, side)
    {
      KeptTotal([a, b], c, side);
      KeptTotal([a], b, side);
      KeptTotal([], a, side);
    }
  }

  function PositiveOn(line: Line, side: Side): int {
    if line.side == side && line.amount > 0 then line.amount else 0
  }

  lemma KeptSnoc(lines: seq<Line>, last: Line)
    ensures Kept(lines + [last]) == if last.amount > 0 then Kept(lines) + [last] else Kept(lines)
  {
  }

  lemma KeptTotal(lines: seq<Line>, last: Line, side: Side)
    ensures SideTotal(Kept(lines + [last]), side) == SideTotal(Kept(lines), side) + PositiveOn(last, side)
  {
  }

  lemma ShareNotNegative(amount: int, rate: Rate)
    requires 0 <= amount
    ensures 0 <= Share(amount, rate)
  {
  }

  lemma ShareNotPositive(amount: int, rate: Rate)
    requires amount <= 0
    ensures Share(amount, rate) <= 0
  {
  }

  /** A payment posts exactly when it is positive and its fee does not exceed it: a negative payable line
      is dropped before the balance is checked. */
  lemma PaymentAcceptedExactly(amount: int, hotel: nat, rate: Rate)
    ensures Balanced(Kept(PaymentLines(amount, hotel, rate))) <==> amount > 0 && Share(amount, rate) <= amount
  {
    var lines := PaymentLines(amount, hotel, rate);
    TotalsOfThree(lines[0], lines[1], lines[2]);
    if amount > 0 {
      ShareNotNegative(amount, rate);
    }
  }

  lemma RefundAcceptedExactly(amount: int, hotel: nat, rate: Rate)
    ensures Balanced(Kept(RefundLines(amount, hotel, rate))) <==> amount > 0 && Share(amount, rate) <= amount
  {
    var lines := RefundLines(amount, hotel, rate);
    TotalsOfThree(lines[0], lines[1], lines[2]);
    if amount > 0 {
      ShareNotNegative(amount, rate);
    } else {
      ShareNotPositive(amount, rate);
    }
  }

  lemma PayoutAcceptedExactly(amount: int, hotel: nat)
    ensures Balanced(Kept(PayoutLines(amount, hotel))) <==> amount > 0
    ensures amount > 0 ==> Kept(PayoutLines(amount, hotel)) == PayoutLines(amount, hotel)
  {
    var a, b := Line(HotelPayable(hotel), Debit, amount), Line(PlatformCash, Credit, amount);
    assert [] + [a] == [a] && [a] + [b] == PayoutLines(amount, hotel);
    KeptSnoc([a], b);
    KeptSnoc([], a);
    KeptTotal([a], b, Debit);
    KeptTotal([a], b, Credit);
    KeptTotal([], a, Debit);
    KeptTotal([], a, Credit);
  }

  /** Every raw rate from 0 to 100, normalised, gives a fee split that every positive amount passes. */
  lemma ConfiguredRateAccepted(amount: int, hotel: nat, num: int, den: nat)
    requires amount > 0 && den > 0 && 0 <= num <= 100 * den
    ensures Balanced(Kept(PaymentLines(amount, hotel, NormalizeRate(num, den))))
    ensures Balanced(Kept(RefundLines(amount, hotel, NormalizeRate(num, den))))
  {
    var rate := NormalizeRate(num, den);
    NormalizedAtMostWhole(num, den);
    ShareWithin(amount, rate);
    PaymentAcceptedExactly(amount, hotel, rate);
    RefundAcceptedExactly(amount, hotel, rate);
  }

  // ---- Balances ----

  /** Debits minus credits of one account. */
  function Net(books: Books, account: Account): int {
    if books == [] then 0
    else
      var last := books[|books| - 1].line;
      Net(books[..|books| - 1], account) + (if last.account == account then last.Signed() else 0)
  }

  function NetOfLines(lines: seq<Line>, account: Account): int {
    if lines == [] then 0
    else
      var last := lines[|lines| - 1];
      NetOfLines(lines[..|lines| - 1], account) + (if last.account == account then last.Signed() else 0)
  }

  lemma {:induction false} NetAppended(books: Books, key: GroupKey, lines: seq<Line>, account: Account)
    ensures Net(books + Tagged(key, lines), account) == Net(books, account) + NetOfLines(lines, account)
  {
    var all := books + Tagged(key, lines);
    if lines == [] {
      assert all == books;
    } else {
      var init := lines[..|lines| - 1];
      assert all[..|all| - 1] == books + Tagged(key, init);
      NetAppended(books, key, init, account);
    }
  }

  function On(line: Line, account: Account): int {
    if line.account == account && line.amount > 0 then line.Signed() else 0
  }

  lemma NetOfKeptSnoc(lines: seq<Line>, last: Line, account: Account)
    ensures NetOfLines(Kept(lines + [last]), account) == NetOfLines(Kept(lines), account) + On(last, account)
  {
  }

  lemma NetOfThree(a: Line, b: Line, c: Line, account: Account)
    ensures NetOfLines(Kept([a, b, c]), account) == On(a, account) + On(b, account) + On(c, account)
  {
    assert [a, b] + [c] == [a, b, c] && [a] + [b] == [a, b] && [] + [a] == [a];
    NetOfKeptSnoc([a, b], c, account);
    NetOfKeptSnoc([a], b, account);
    NetOfKeptSnoc([], a, account);
  }

  /** What one payment adds to an account, debits positive. */
  function PaymentEffect(amount: int, hotel: nat, rate: Rate, account: Account): int {
    match account
    case PlatformCash => amount
    case PlatformRevenue => -Share(amount, rate)
    case HotelPayable(h) => if h == hotel then -(amount - Share(amount, rate)) else 0
  }

  lemma PaymentNet(amount: int, hotel: nat, rate: Rate, account: Account)
    requires amount > 0 && Share(amount, rate) <= amount
    ensures NetOfLines(Kept(PaymentLines(amount, hotel, rate)), account) == PaymentEffect(amount, hotel, rate, account)
  {
    var lines := PaymentLines(amount, hotel, rate);
    ShareNotNegative(amount, rate);
    NetOfThree(lines[0], lines[1], lines[2], account);
  }

  lemma RefundNet(amount: int, hotel: nat, rate: Rate, account: Account)
    requires amount > 0 && Share(amount, rate) <= amount
    ensures NetOfLines(Kept(RefundLines(amount, hotel, rate)), account) == -PaymentEffect(amount, hotel, rate, account)
  {
    var lines := RefundLines(amount, hotel, rate);
    ShareNotNegative(amount, rate);
    NetOfThree(lines[0], lines[1], lines[2], account);
  }

  lemma PayoutNet(amount: int, hotel: nat, account: Account)
    requires amount > 0
    ensures NetOfLines(PayoutLines(amount, hotel), account)
         == (match account case PlatformCash => -amount case PlatformRevenue => 0
             case HotelPayable(h) => if h == hotel then amount else 0)
  {
    var a, b := Line(HotelPayable(hotel), Debit, amount), Line(PlatformCash, Credit, amount);
    assert [] + [a] == [a] && [a] + [b] == PayoutLines(amount, hotel);
    PayoutAcceptedExactly(amount, hotel);
    NetOfKeptSnoc([a], b, account);
    NetOfKeptSnoc([], a, account);
  }

  // ---- Refunds against their payment ----

  /** Payment and full refund at the same rate cancel on every account. */
  lemma FullRefundInvertsPayment(books: Books, tx: nat, refund: nat,
                                 amount: int, hotel: nat, rate: Rate, account: Account)
    requires amount > 0 && Share(amount, rate) <= amount
    requires EntriesOf(books, PaymentSucceeded(tx)) == [] && EntriesOf(books, RefundSucceeded(refund)) == []
    ensures var paid := Post(books, PaymentSucceeded(tx), PaymentLines(amount, hotel, rate));
            && paid.Ok?
            && var refunded := Post(paid.value, RefundSucceeded(refund), RefundLines(amount, hotel, rate));
            && refunded.Ok?
            && Net(refunded.value, account) == Net(books, account)
  {
    PaidThenRefunded(books, tx, refund, amount, amount, hotel, rate, account);
  }

  /** A single refund not above its payment leaves what the payment earned the platform, and what it owes
      the hotel, between nothing and the original contribution. */
  lemma SingleRefundKeepsContributions(books: Books, tx: nat, refund: nat,
                                       amount: int, refunded: int, hotel: nat, rate: Rate, account: Account)
    requires 0 < refunded <= amount && AtMostWhole(rate) && account != PlatformCash
    requires EntriesOf(books, PaymentSucceeded(tx)) == [] && EntriesOf(books, RefundSucceeded(refund)) == []
    ensures var paid := Post(books, PaymentSucceeded(tx), PaymentLines(amount, hotel, rate));
            && paid.Ok?
            && var after := Post(paid.value, RefundSucceeded(refund), RefundLines(refunded, hotel, rate));
            && after.Ok?
            && Net(paid.value, account) <= Net(after.value, account) <= Net(books, account)
  {
    ShareWithin(amount, rate);
    ShareWithin(refunded, rate);
    PaidThenRefunded(books, tx, refund, amount, refunded, hotel, rate, account);
    ShareMonotone(refunded, amount, rate);
    RemainderMonotone(refunded, amount, rate);
  }

  /** What the two postings do to one account. */
  lemma PaidThenRefunded(books: Books, tx: nat, refund: nat,
                         amount: int, refunded: int, hotel: nat, rate: Rate, account: Account)
    requires amount > 0 && Share(amount, rate) <= amount && refunded > 0 && Share(refunded, rate) <= refunded
    requires EntriesOf(books, PaymentSucceeded(tx)) == [] && EntriesOf(books, RefundSucceeded(refund)) == []
    ensures var paid := Post(books, PaymentSucceeded(tx), PaymentLines(amount, hotel, rate));
            && paid.Ok?
            && Net(paid.value, account) == Net(books, account) + PaymentEffect(amount, hotel, rate, account)
            && var after := Post(paid.value, RefundSucceeded(refund), RefundLines(refunded, hotel, rate));
            && after.Ok?
            && Net(after.value, account) == Net(paid.value, account) - PaymentEffect(refunded, hotel, rate, account)
  {
    PaymentAcceptedExactly(amount, hotel, rate);
    RefundAcceptedExactly(refunded, hotel, rate);
    var kept := Kept(PaymentLines(amount, hotel, rate));
    EntriesOfAppended(books, PaymentSucceeded(tx), kept, RefundSucceeded(refund));
    NetAppended(books, PaymentSucceeded(tx), kept, account);
    NetAppended(books + Tagged(PaymentSucceeded(tx), kept),
                RefundSucceeded(refund), Kept(RefundLines(refunded, hotel, rate)), account);
    PaymentNet(amount, hotel, rate, account);
    RefundNet(refunded, hotel, rate, account);
  }

  /** Posts one refund after another under consecutive refund ids. */
  function PostRefunds(books: Books, first: nat, parts: seq<int>, hotel: nat, rate: Rate): Books {
    if parts == [] then books
    else
      var n := |parts| - 1;
      var before := PostRefunds(books, first, parts[..n], hotel, rate);
      match Post(before, RefundSucceeded(first + n), RefundLines(parts[n], hotel, rate))
      case Ok(after) => after
      case Err(_) => before
  }

  /** Each part can be posted as a refund. */
  ghost predicate Refundable(parts: seq<int>, rate: Rate) {
    forall i | 0 <= i < |parts| :: parts[i] > 0 && Share(parts[i], rate) <= parts[i]
  }

  /** What posting all parts has done to the accounts and to the refund groups. */
  ghost predicate RefundedBy(books: Books, after: Books, first: nat, parts: seq<int>, hotel: nat, rate: Rate) {
    && (forall id | first + |parts| <= id :: EntriesOf(after, RefundSucceeded(id)) == [])
    && Net(after, PlatformRevenue) == Net(books, PlatformRevenue) + SumOfShares(parts, rate)
    && Net(after, HotelPayable(hotel)) == Net(books, HotelPayable(hotel)) + Sum(parts) - SumOfShares(parts, rate)
    && Net(after, PlatformCash) == Net(books, PlatformCash) - Sum(parts)
  }

  lemma RefundAdded(books: Books, mid: Books, after: Books, first: nat, parts: seq<int>, hotel: nat, rate: Rate)
    requires parts != [] && RefundedBy(books, mid, first, parts[..|parts| - 1], hotel, rate)
    requires forall id | first + |parts| <= id :: EntriesOf(after, RefundSucceeded(id)) == []
    requires forall account ::
               Net(after, account) == Net(mid, account) - PaymentEffect(parts[|parts| - 1], hotel, rate, account)
    ensures RefundedBy(books, after, first, parts, hotel, rate)
  {
  }

  lemma {:induction false} PostedRefunds(books: Books, first: nat, parts: seq<int>, hotel: nat, rate: Rate)
    requires Refundable(parts, rate)
    requires forall id | first <= id :: EntriesOf(books, RefundSucceeded(id)) == []
    ensures RefundedBy(books, PostRefunds(books, first, parts, hotel, rate), first, parts, hotel, rate)
  {
    if parts != [] {
      var n := |parts| - 1;
      var mid := PostRefunds(books, first, parts[..n], hotel, rate);
      PostedRefunds(books, first, parts[..n], hotel, rate);
      PostedRefund(mid, first + n, parts[n], hotel, rate);
      RefundAdded(books, mid, PostRefunds(books, first, parts, hotel, rate), first, parts, hotel, rate);
    }
  }

  lemma PostedRefund(books: Books, id: nat, part: int, hotel: nat, rate: Rate)
    requires part > 0 && Share(part, rate) <= part
    requires forall k | id <= k :: EntriesOf(books, RefundSucceeded(k)) == []
    ensures var r := Post(books, RefundSucceeded(id), RefundLines(part, hotel, rate));
            && r.Ok?
            && (forall k | id + 1 <= k :: EntriesOf(r.value, RefundSucceeded(k)) == [])
            && (forall account ::
                  Net(r.value, account) == Net(books, account) - PaymentEffect(part, hotel, rate, account))
  {
    RefundAcceptedExactly(part, hotel, rate);
    var kept := Kept(RefundLines(part, hotel, rate));
    forall k | id + 1 <= k ensures EntriesOf(books + Tagged(RefundSucceeded(id), kept), RefundSucceeded(k)) == [] {
      EntriesOfAppended(books, RefundSucceeded(id), kept, RefundSucceeded(k));
    }
    forall account
      ensures Net(books + Tagged(RefundSucceeded(id), kept), account)
              == Net(books, account) - PaymentEffect(part, hotel, rate, account)
    {
      NetAppended(books, RefundSucceeded(id), kept, account);
      RefundNet(part, hotel, rate, account);
    }
  }

  /** A payment given back in n parts returns all the cash, and leaves on the revenue and on the payable
      account a residue of at most (n + 1) / 2 cents, of opposite signs. */
  lemma PartialRefundsDrift(books: Books, tx: nat, first: nat, parts: seq<int>, hotel: nat, rate: Rate)
    requires AtMostWhole(rate) && parts != [] && forall i | 0 <= i < |parts| :: parts[i] > 0
    requires EntriesOf(books, PaymentSucceeded(tx)) == []
    requires forall id | first <= id :: EntriesOf(books, RefundSucceeded(id)) == []
    ensures var paid := Post(books, PaymentSucceeded(tx), PaymentLines(Sum(parts), hotel, rate));
            && paid.Ok?
            && var after := PostRefunds(paid.value, first, parts, hotel, rate);
            var residue := Net(after, PlatformRevenue) - Net(books, PlatformRevenue);
            && -(|parts| + 1) <= 2 * residue <= |parts| + 1
            && Net(after, HotelPayable(hotel)) - Net(books, HotelPayable(hotel)) == -residue
            && Net(after, PlatformCash) == Net(books, PlatformCash)
  {
    var amount := Sum(parts);
    SumPositive(parts);
    ShareWithin(amount, rate);
    forall i | 0 <= i < |parts| ensures Share(parts[i], rate) <= parts[i] {
      ShareWithin(parts[i], rate);
    }
    PaidAndRefunded(books, tx, first, amount, parts, hotel, rate);
    DriftOfParts(parts, rate);
  }

  lemma {:induction false} SumPositive(parts: seq<int>)
    requires forall i | 0 <= i < |parts| :: parts[i] > 0
    ensures Sum(parts) >= |parts|
  {
    if parts != [] {
      SumPositive(parts[..|parts| - 1]);
    }
  }

  /** Several refunds of one payment, whatever they add up to: the revenue account ends no worse than before
      the payment exactly when the fees reversed do not exceed the fee earned, the payable account exactly when
      the rest of the refunds does not exceed the rest of the payment, and cash exactly when no more is
      returned than was paid. */
  lemma RefundsOverdrawExactly(books: Books, tx: nat, first: nat, amount: int, parts: seq<int>, hotel: nat, rate: Rate)
    requires amount > 0 && Share(amount, rate) <= amount && Refundable(parts, rate)
    requires EntriesOf(books, PaymentSucceeded(tx)) == []
    requires forall id | first <= id :: EntriesOf(books, RefundSucceeded(id)) == []
    ensures var paid := Post(books, PaymentSucceeded(tx), PaymentLines(amount, hotel, rate));
            && paid.Ok?
            && var after := PostRefunds(paid.value, first, parts, hotel, rate);
            && (Net(after, PlatformRevenue) <= Net(books, PlatformRevenue)
                <==> SumOfShares(parts, rate) <= Share(amount, rate))
            && (Net(after, HotelPayable(hotel)) <= Net(books, HotelPayable(hotel))
                <==> Sum(parts) - SumOfShares(parts, rate) <= amount - Share(amount, rate))
            && (Net(books, PlatformCash) <= Net(after, PlatformCash) <==> Sum(parts) <= amount)
  {
    PaidAndRefunded(books, tx, first, amount, parts, hotel, rate);
  }

  lemma PaidAndRefunded(books: Books, tx: nat, first: nat, amount: int, parts: seq<int>, hotel: nat, rate: Rate)
    requires amount > 0 && Share(amount, rate) <= amount && Refundable(parts, rate)
    requires EntriesOf(books, PaymentSucceeded(tx)) == []
    requires forall id | first <= id :: EntriesOf(books, RefundSucceeded(id)) == []
    ensures var paid := Post(books, PaymentSucceeded(tx), PaymentLines(amount, hotel, rate));
            && paid.Ok?
            && var after := PostRefunds(paid.value, first, parts, hotel, rate);
            && Net(after, PlatformRevenue) == Net(paid.value, PlatformRevenue) + SumOfShares(parts, rate)
            && Net(after, PlatformRevenue)
               == Net(books, PlatformRevenue) - Share(amount, rate) + SumOfShares(parts, rate)
            && Net(after, HotelPayable(hotel))
               == Net(books, HotelPayable(hotel)) - (amount - Share(amount, rate))
                  + Sum(parts) - SumOfShares(parts, rate)
            && Net(after, PlatformCash) == Net(books, PlatformCash) + amount - Sum(parts)
  {
    PaymentAcceptedExactly(amount, hotel, rate);
    var kept := Kept(PaymentLines(amount, hotel, rate));
    var paid := books + Tagged(PaymentSucceeded(tx), kept);
    forall id | first <= id ensures EntriesOf(paid, RefundSucceeded(id)) == [] {
      EntriesOfAppended(books, PaymentSucceeded(tx), kept, RefundSucceeded(id));
    }
    PostedRefunds(paid, first, parts, hotel, rate);
    forall account ensures Net(paid, account) == Net(books, account) + PaymentEffect(amount, hotel, rate, account) {
      NetAppended(books, PaymentSucceeded(tx), kept, account);
      PaymentNet(amount, hotel, rate, account);
    }
  }

  /** The guard for the next refund, of c cents: it overdraws neither account exactly when its fee and its rest
      stay within what the payment earned less what earlier refunds have reversed.  What has been reversed can
      be read off the revenue account. */
  lemma NextRefundSafeExactly(books: Books, tx: nat, first: nat,
                              amount: int, parts: seq<int>, c: int, hotel: nat, rate: Rate)
    requires amount > 0 && Share(amount, rate) <= amount && Refundable(parts, rate) && c > 0 && Share(c, rate) <= c
    requires EntriesOf(books, PaymentSucceeded(tx)) == []
    requires forall id | first <= id :: EntriesOf(books, RefundSucceeded(id)) == []
    ensures var paid := Post(books, PaymentSucceeded(tx), PaymentLines(amount, hotel, rate));
            && paid.Ok?
            && var after := PostRefunds(paid.value, first, parts, hotel, rate);
            var next := PostRefunds(paid.value, first, parts + [c], hotel, rate);
            var reversed := Net(after, PlatformRevenue) - Net(paid.value, PlatformRevenue);
            && reversed == SumOfShares(parts, rate)
            && (Net(next, PlatformRevenue) <= Net(books, PlatformRevenue)
                <==> Share(c, rate) <= Share(amount, rate) - reversed)
            && (Net(next, HotelPayable(hotel)) <= Net(books, HotelPayable(hotel))
                <==> c - Share(c, rate) <= amount - Share(amount, rate) - (Sum(parts) - reversed))
  {
    var all := parts + [c];
    assert all[..|parts|] == parts;
    PaidAndRefunded(books, tx, first, amount, parts, hotel, rate);
    PaidAndRefunded(books, tx, first, amount, all, hotel, rate);
  }

  // ---- Every run of postings ----

  datatype Event =
    | Payment(tx: nat, amount: int, hotel: nat, rate: Rate)
    | Refund(refund: nat, refundAmount: int, refundHotel: nat, refundRate: Rate)
    | Payout(payout: nat, payoutAmount: int, payoutHotel: nat)

  function KeyOf(e: Event): GroupKey {
    match e
    case Payment(tx, _, _, _) => PaymentSucceeded(tx)
    case Refund(id, _, _, _) => RefundSucceeded(id)
    case Payout(id, _, _) => PayoutPaid(id)
  }

  function LinesOf(e: Event): seq<Line> {
    match e
    case Payment(_, amount, hotel, rate) => PaymentLines(amount, hotel, rate)
    case Refund(_, amount, hotel, rate) => RefundLines(amount, hotel, rate)
    case Payout(_, amount, hotel) => PayoutLines(amount, hotel)
  }

  /** A posting that throws is rolled back. */
  function Apply(books: Books, key: GroupKey, lines: seq<Line>): Books {
    var r := Post(books, key, lines);
    if r.Ok? then r.value else books
  }

  function RunPostings(books: Books, events: seq<Event>): Books {
    if events == [] then books
    else
      var last := events[|events| - 1];
      Apply(RunPostings(books, events[..|events| - 1]), KeyOf(last), LinesOf(last))
  }

  /** What the hotels numbered below `bound` are owed, together. */
  function OwedToHotels(books: Books, bound: nat): int {
    if bound == 0 then 0 else OwedToHotels(books, bound - 1) - Net(books, HotelPayable(bound - 1))
  }

  ghost predicate HotelsBelow(books: Books, bound: nat) {
    forall i | 0 <= i < |books| && books[i].line.account.HotelPayable? :: books[i].line.account.hotel < bound
  }

  ghost predicate GroupsBalanced(books: Books) {
    forall key :: EntriesOf(books, key) == [] || Balanced(EntriesOf(books, key))
  }

  /** Debits minus credits over all accounts. */
  function Imbalance(books: Books): int {
    if books == [] then 0 else Imbalance(books[..|books| - 1]) + books[|books| - 1].line.Signed()
  }

  lemma {:induction false} OwedAppended(books: Books, e: Entry, bound: nat)
    ensures OwedToHotels(books + [e], bound) == OwedToHotels(books, bound)
              - if e.line.account.HotelPayable? && e.line.account.hotel < bound then e.line.Signed() else 0
  {
    assert (books + [e])[..|books|] == books;
    if bound != 0 {
      OwedAppended(books, e, bound - 1);
    }
  }

  lemma {:induction false} NothingOwed(bound: nat)
    ensures OwedToHotels([], bound) == 0
  {
    if bound != 0 {
      NothingOwed(bound - 1);
    }
  }

  /** Cash, revenue and the hotels' payables partition the entries. */
  lemma {:induction false} AccountsPartition(books: Books, bound: nat)
    requires HotelsBelow(books, bound)
    ensures Net(books, PlatformCash) + Net(books, PlatformRevenue) - OwedToHotels(books, bound) == Imbalance(books)
  {
    if books == [] {
      NothingOwed(bound);
    } else {
      var init, last := books[..|books| - 1], books[|books| - 1];
      AccountsPartition(init, bound);
      OwedAppended(init, last, bound);
      assert init + [last] == books;
    }
  }

  lemma {:induction false} ImbalanceAppended(books: Books, key: GroupKey, lines: seq<Line>)
    ensures Imbalance(books + Tagged(key, lines))
         == Imbalance(books) + SideTotal(lines, Debit) - SideTotal(lines, Credit)
  {
    var all := books + Tagged(key, lines);
    if lines == [] {
      assert all == books;
    } else {
      var init := lines[..|lines| - 1];
      assert all[..|all| - 1] == books + Tagged(key, init);
      ImbalanceAppended(books, key, init);
    }
  }

  /** Whatever is posted, balanced books stay balanced, group by group and in total. */
  lemma PostKeepsBalance(books: Books, key: GroupKey, lines: seq<Line>)
    requires GroupsBalanced(books) && Imbalance(books) == 0
    ensures GroupsBalanced(Apply(books, key, lines)) && Imbalance(Apply(books, key, lines)) == 0
  {
    var kept := Kept(lines);
    if EntriesOf(books, key) == [] && Balanced(kept) {
      ImbalanceAppended(books, key, kept);
      forall k
        ensures EntriesOf(books + Tagged(key, kept), k) == [] || Balanced(EntriesOf(books + Tagged(key, kept), k))
      {
        EntriesOfAppended(books, key, kept, k);
        if k == key {
          assert [] + kept == kept;
        } else {
          assert EntriesOf(books, k) == [] || Balanced(EntriesOf(books, k));
        }
      }
    }
  }

  /** After every run of payments, refunds and payouts, in any order and with any repetitions: every group is
      balanced, and the platform's cash equals its revenue plus what it owes all hotels. */
  lemma {:induction false} AccountingEquation(events: seq<Event>, bound: nat)
    requires HotelsBelow(RunPostings([], events), bound)
    ensures var books := RunPostings([], events);
            && GroupsBalanced(books)
            && Imbalance(books) == 0
            && Net(books, PlatformCash) == -Net(books, PlatformRevenue) + OwedToHotels(books, bound)
  {
    RunKeepsBalance(events);
    AccountsPartition(RunPostings([], events), bound);
  }

  lemma {:induction false} RunKeepsBalance(events: seq<Event>)
    ensures GroupsBalanced(RunPostings([], events)) && Imbalance(RunPostings([], events)) == 0
  {
    if events == [] {
    } else {
      var init, last := events[..|events| - 1], events[|events| - 1];
      RunKeepsBalance(init);
      PostKeepsBalance(RunPostings([], init), KeyOf(last), LinesOf(last));
    }
  }
}
