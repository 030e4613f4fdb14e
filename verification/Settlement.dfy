/** Payouts to hotel owners: one item per booking, one transfer and one ledger group per payout. */
module Settlement {
  import opened Common
  import opened Money
  import Ledger
  import Pricing

  datatype PayoutStatus = Pending | Processing | Paid | Failed

  datatype Payout = Payout(hotel: nat, owner: nat, amount: int, fee: int, status: PayoutStatus)

  datatype Item = Item(payout: nat, booking: nat, gross: int, fee: int, net: int)

  datatype Tables = Tables(payouts: seq<Payout>, items: seq<Item>)

  /** A row of the eligibility query, with the payout item joined at query time: it may be out of date by
      the time the loop reaches the row.  `account` tells whether a payout-ready account is found.  The
      commission is None when the source takes it for missing: absent, or the number zero.  A decimal column
      read as text is not missing when it holds zero. */
  datatype Eligible = Eligible(booking: nat, hotel: nat, owner: Option<nat>,
                               total: int, commission: Option<int>, itemSeen: bool, account: bool)

  datatype Outcome = Skipped | Created(tables: Tables) | Threw

  /** A missing commission falls back to the fee rate passed to the run. */
  function FeeOf(e: Eligible, feeRate: Rate): int {
    if e.commission.Some? then e.commission.value else Share(e.total, feeRate)
  }

  predicate HasItem(items: seq<Item>, booking: nat) {
    exists i | 0 <= i < |items| :: items[i].booking == booking
  }

  /** The loop body of createEligiblePayouts.  Inserting a second item for a booking violates the unique index
      and rolls back the payout with it. */
  function Attempt(t: Tables, e: Eligible, feeRate: Rate): Outcome {
    var fee := FeeOf(e, feeRate);
    var net := e.total - fee;
    if e.itemSeen || e.owner.None? || net <= 0 then Skipped
    else if !e.account || HasItem(t.items, e.booking) then Threw
    else Created(Tables(t.payouts + [Payout(e.hotel, e.owner.value, net, fee, Pending)],
                        t.items + [Item(|t.payouts|, e.booking, e.total, fee, net)]))
  }

  function After(t: Tables, o: Outcome): Tables {
    if o.Created? then o.tables else t
  }

  /** A whole run; an exception ends it. */
  function RunPayouts(t: Tables, eligible: seq<Eligible>, feeRate: Rate): Tables
    decreases |eligible|
  {
    if eligible == [] then t
    else
      var o := Attempt(t, eligible[0], feeRate);
      if o.Threw? then t else RunPayouts(After(t, o), eligible[1..], feeRate)
  }

  predicate RunThrows(t: Tables, eligible: seq<Eligible>, feeRate: Rate)
    decreases |eligible|
  {
    eligible != [] &&
    var o := Attempt(t, eligible[0], feeRate);
    o.Threw? || RunThrows(After(t, o), eligible[1..], feeRate)
  }

  class PayoutService {
    var payouts: seq<Payout>
    var items: seq<Item>
    const ledger: Ledger.LedgerStore

    constructor (ledger: Ledger.LedgerStore)
      ensures payouts == [] && items == [] && this.ledger == ledger
    {
      this.ledger := ledger;
      payouts, items := [], [];
    }

    function Current(): Tables
      reads this
    {
      Tables(payouts, items)
    }

    method CreateEligiblePayouts(eligible: seq<Eligible>, feeRate: Rate) returns (created: nat, threw: bool)
      modifies this`payouts, this`items
      ensures Current() == RunPayouts(old(Current()), eligible, feeRate)
      ensures threw <==> RunThrows(old(Current()), eligible, feeRate)
      ensures created == |items| - |old(items)|
    {
      created, threw := 0, false;
      var k := 0;
      while k < |eligible|
        invariant 0 <= k <= |eligible|
        invariant RunPayouts(old(Current()), eligible, feeRate) == RunPayouts(Current(), eligible[k..], feeRate)
        invariant RunThrows(old(Current()), eligible, feeRate) <==> RunThrows(Current(), eligible[k..], feeRate)
        invariant created == |items| - |old(items)| && !threw
      {
        var e := eligible[k];
        assert eligible[k..][0] == e && eligible[k..][1..] == eligible[k + 1..];
        k := k + 1;
        if e.itemSeen || e.owner.None? {
          continue;
        }
        var fee := FeeOf(e, feeRate);
        var net := e.total - fee;
        if net <= 0 {
          continue;
        }
        if !e.account {
          threw := true;
          return;
        }
        var savedPayouts := payouts;
        payouts := payouts + [Payout(e.hotel, e.owner.value, net, fee, Pending)];
        if HasItem(items, e.booking) {
          payouts := savedPayouts;
          threw := true;
          return;
        }
        items := items + [Item(|payouts| - 1, e.booking, e.total, fee, net)];
        created := created + 1;
      }
    }

    /** processStripeTransfer.  Any failure after the status is set to processing ends in `failed`. */
    method ProcessTransfer(i: nat, transferred: bool, notified: bool) returns (ok: bool)
      requires ledger.Valid()
      modifies this`payouts, ledger
      ensures ledger.Valid()
      ensures (payouts, ledger.entries) == TransferStep(old(payouts), old(ledger.entries), i, transferred, notified)
      ensures ok <==> payouts != old(payouts) && payouts[i].status.Paid?
    {
      if i >= |payouts| || !payouts[i].status.Pending? {
        return false;
      }
      var payout := payouts[i];
      payouts := payouts[i := payout.(status := Processing)];
      ok := transferred;
      if ok {
        payouts := payouts[i := payout.(status := Paid)];
        ok := ledger.PostBalancedEntries(Ledger.PayoutPaid(i), Ledger.PayoutLines(payout.amount, payout.hotel));
        ok := ok && notified;
      }
      if !ok {
        payouts := payouts[i := payout.(status := Failed)];
      }
      assert payouts == old(payouts)[i := payouts[i]];
    }
  }

  function TransferStep(payouts: seq<Payout>, books: Ledger.Books,
                        i: nat, transferred: bool, notified: bool): (seq<Payout>, Ledger.Books)
  {
    if i >= |payouts| || !payouts[i].status.Pending? then (payouts, books)
    else
      var lines := Ledger.PayoutLines(payouts[i].amount, payouts[i].hotel);
      var posted := transferred && Ledger.Post(books, Ledger.PayoutPaid(i), lines).Ok?;
      (payouts[i := payouts[i].(status := if posted && notified then Paid else Failed)],
       if transferred then Ledger.Apply(books, Ledger.PayoutPaid(i), lines) else books)
  }

  // ---- Who is paid out ----

  /** The row has an owner, no item was seen for it, and something is left of it after the fee. */
  predicate Payable(e: Eligible, feeRate: Rate) {
    !e.itemSeen && e.owner.Some? && FeeOf(e, feeRate) < e.total
  }

  /** The one payout and the one item that a row leads to. */
  predicate PaysRow(t: Tables, after: Tables, e: Eligible, feeRate: Rate) {
    && |after.payouts| == |t.payouts| + 1 && |after.items| == |t.items| + 1
    && after.payouts[..|t.payouts|] == t.payouts && after.items[..|t.items|] == t.items
    && e.owner.Some?
    && var payout, item := after.payouts[|t.payouts|], after.items[|t.items|];
    && payout.hotel == e.hotel && payout.owner == e.owner.value && payout.status.Pending?
    && item.payout == |t.payouts| && item.booking == e.booking && item.gross == e.total
    && payout.amount == item.net == e.total - FeeOf(e, feeRate) && payout.fee == item.fee == FeeOf(e, feeRate)
  }

  /** A row is paid out exactly if it is payable, its account is ready and its booking has no item; it ends the
      run exactly if it is payable and one of the other two fails; the rest are passed over. */
  lemma AttemptPaysExactly(t: Tables, e: Eligible, feeRate: Rate)
    ensures var o := Attempt(t, e, feeRate);
            && (o.Created? <==> Payable(e, feeRate) && e.account && !HasItem(t.items, e.booking))
            && (o.Threw? <==> Payable(e, feeRate) && (!e.account || HasItem(t.items, e.booking)))
            && (if o.Created? then PaysRow(t, o.tables, e, feeRate) else After(t, o) == t)
  {
  }

  function CountPayable(rows: seq<Eligible>, feeRate: Rate): nat
    decreases |rows|
  {
    if rows == [] then 0 else (if Payable(rows[0], feeRate) then 1 else 0) + CountPayable(rows[1..], feeRate)
  }

  /** Row k is payable, but its account is not ready, or its booking has an item already or an earlier payable
      row. */
  ghost predicate Blocked(t: Tables, rows: seq<Eligible>, feeRate: Rate, k: nat)
    requires k < |rows|
  {
    && Payable(rows[k], feeRate)
    && (|| !rows[k].account || HasItem(t.items, rows[k].booking)
        || exists j | 0 <= j < k :: Payable(rows[j], feeRate) && rows[j].booking == rows[k].booking)
  }

  lemma HasItemAppended(items: seq<Item>, item: Item, booking: nat)
    ensures HasItem(items + [item], booking) <==> HasItem(items, booking) || item.booking == booking
  {
    var all := items + [item];
    if HasItem(items, booking) {
      var i :| 0 <= i < |items| && items[i].booking == booking;
      assert all[i].booking == booking;
    }
    assert all[|items|] == item;
  }

  /** After one attempt that does not end the run, the rest is blocked where it was before. */
  lemma BlockedInRest(t: Tables, rows: seq<Eligible>, feeRate: Rate, k: nat)
    requires 0 < k < |rows| && !Attempt(t, rows[0], feeRate).Threw?
    ensures Blocked(After(t, Attempt(t, rows[0], feeRate)), rows[1..], feeRate, k - 1)
            <==> Blocked(t, rows, feeRate, k)
  {
    var rest, after := rows[1..], After(t, Attempt(t, rows[0], feeRate));
    AttemptPaysExactly(t, rows[0], feeRate);
    if Payable(rows[0], feeRate) {
      assert after.items == t.items + [after.items[|t.items|]];
      HasItemAppended(t.items, after.items[|t.items|], rows[k].booking);
    }
    if Blocked(t, rows, feeRate, k) && rows[k].account && !HasItem(t.items, rows[k].booking) {
      var j :| 0 <= j < k && Payable(rows[j], feeRate) && rows[j].booking == rows[k].booking;
      assert j > 0 ==> rest[j - 1] == rows[j];
    }
    if Blocked(after, rest, feeRate, k - 1) && rows[k].account && !HasItem(after.items, rows[k].booking) {
      var j :| 0 <= j < k - 1 && Payable(rest[j], feeRate) && rest[j].booking == rest[k - 1].booking;
      assert rows[j + 1] == rest[j];
    }
  }

  /** A run throws exactly if one of its rows is blocked: a payable row whose account is not ready, whose booking
      has an item that the query did not see, or which is listed twice. */
  lemma {:induction false} RunThrowsExactly(t: Tables, rows: seq<Eligible>, feeRate: Rate)
    ensures RunThrows(t, rows, feeRate) <==> exists k | 0 <= k < |rows| :: Blocked(t, rows, feeRate, k)
    decreases |rows|
  {
    if rows != [] {
      var o := Attempt(t, rows[0], feeRate);
      AttemptPaysExactly(t, rows[0], feeRate);
      assert o.Threw? <==> Blocked(t, rows, feeRate, 0);
      if !o.Threw? {
        RunThrowsExactly(After(t, o), rows[1..], feeRate);
        forall k | 0 < k < |rows|
          ensures Blocked(After(t, o), rows[1..], feeRate, k - 1) <==> Blocked(t, rows, feeRate, k)
        {
          BlockedInRest(t, rows, feeRate, k);
        }
        if RunThrows(t, rows, feeRate) {
          var k :| 0 <= k < |rows[1..]| && Blocked(After(t, o), rows[1..], feeRate, k);
          assert Blocked(t, rows, feeRate, k + 1);
        }
        if k :| 0 <= k < |rows| && Blocked(t, rows, feeRate, k) {
          assert Blocked(After(t, o), rows[1..], feeRate, k - 1);
        }
      }
    }
  }

  /** The item of a payable row. */
  predicate ItemOf(item: Item, e: Eligible, feeRate: Rate) {
    && item.booking == e.booking && item.gross == e.total
    && item.fee == FeeOf(e, feeRate) && item.net == e.total - item.fee
  }

  ghost predicate RowPaid(items: seq<Item>, from: nat, e: Eligible, feeRate: Rate) {
    exists i | from <= i < |items| :: ItemOf(items[i], e, feeRate)
  }

  /** A run that does not throw pays out every payable row it is given, and nothing else: there are as many new
      items as payable rows, and each payable row has a new one of its amounts.  Old items stay. */
  lemma {:induction false} RunPaysExactly(t: Tables, rows: seq<Eligible>, feeRate: Rate)
    requires !RunThrows(t, rows, feeRate)
    ensures var after := RunPayouts(t, rows, feeRate);
            && |after.items| == |t.items| + CountPayable(rows, feeRate) && after.items[..|t.items|] == t.items
            && forall k | 0 <= k < |rows| && Payable(rows[k], feeRate) ::
              RowPaid(after.items, |t.items|, rows[k], feeRate)
    decreases |rows|
  {
    if rows != [] {
      var first := After(t, Attempt(t, rows[0], feeRate));
      AttemptPaysExactly(t, rows[0], feeRate);
      RunPaysExactly(first, rows[1..], feeRate);
      var after := RunPayouts(t, rows, feeRate);
      assert after.items[..|t.items|] == after.items[..|first.items|][..|t.items|];
      forall k | 0 <= k < |rows| && Payable(rows[k], feeRate)
        ensures RowPaid(after.items, |t.items|, rows[k], feeRate)
      {
        if k == 0 {
          assert after.items[..|first.items|][|t.items|] == first.items[|t.items|];
          assert ItemOf(after.items[|t.items|], rows[0], feeRate);
        } else {
          assert RowPaid(after.items, |first.items|, rows[1..][k - 1], feeRate);
        }
      }
    }
  }

  // ---- Items ----

  /** Every item splits its gross amount exactly, stands for its own booking and its own payout of the net. */
  ghost predicate ItemsSound(t: Tables) {
    && |t.items| == |t.payouts|
    && (forall i | 0 <= i < |t.items| ::
          && t.items[i].payout == i
          && t.items[i].net + t.items[i].fee == t.items[i].gross && t.items[i].net > 0
          && t.payouts[i].amount == t.items[i].net && t.payouts[i].fee == t.items[i].fee)
    && (forall i, j | 0 <= i < j < |t.items| :: t.items[i].booking != t.items[j].booking)
  }

  lemma AttemptKeepsItems(t: Tables, e: Eligible, feeRate: Rate)
    requires ItemsSound(t)
    ensures ItemsSound(After(t, Attempt(t, e, feeRate)))
    ensures Attempt(t, e, feeRate).Threw? && e.account ==> HasItem(t.items, e.booking)
  {
  }

  /** Attempts from any number of overlapping runs, in any order and each with its own stale view. */
  function Interleaved(t: Tables, attempts: seq<Eligible>, feeRate: Rate): Tables {
    if attempts == [] then t
    else
      var before := Interleaved(t, attempts[..|attempts| - 1], feeRate);
      After(before, Attempt(before, attempts[|attempts| - 1], feeRate))
  }

  /** Each booking is paid out at most once, and net and fee always make up the gross amount. */
  lemma {:induction false} AtMostOneItemPerBooking(attempts: seq<Eligible>, feeRate: Rate)
    ensures ItemsSound(Interleaved(Tables([], []), attempts, feeRate))
  {
    if attempts != [] {
      var init := attempts[..|attempts| - 1];
      AtMostOneItemPerBooking(init, feeRate);
      AttemptKeepsItems(Interleaved(Tables([], []), init, feeRate), attempts[|attempts| - 1], feeRate);
    }
  }

  /** A run is such a sequence of attempts: those before the exception that ended it, if one did. */
  lemma {:induction false} RunIsInterleaving(t: Tables, eligible: seq<Eligible>, feeRate: Rate)
    ensures exists n | 0 <= n <= |eligible| ::
            RunPayouts(t, eligible, feeRate) == Interleaved(t, eligible[..n], feeRate)
    decreases |eligible|
  {
    if eligible == [] || Attempt(t, eligible[0], feeRate).Threw? {
      assert eligible[..0] == [];
    } else {
      var first := After(t, Attempt(t, eligible[0], feeRate));
      RunIsInterleaving(first, eligible[1..], feeRate);
      var n :| 0 <= n <= |eligible| - 1
          && RunPayouts(first, eligible[1..], feeRate) == Interleaved(first, eligible[1..][..n], feeRate);
      InterleavedCons(t, eligible[0], eligible[1..][..n], feeRate);
      assert [eligible[0]] + eligible[1..][..n] == eligible[..n + 1];
    }
  }

  lemma {:induction false} InterleavedCons(t: Tables, e: Eligible, rest: seq<Eligible>, feeRate: Rate)
    ensures Interleaved(t, [e] + rest, feeRate) == Interleaved(After(t, Attempt(t, e, feeRate)), rest, feeRate)
  {
    var all := [e] + rest;
    if rest == [] {
      assert all[..0] == [] && all[0] == e;
    } else {
      assert all[..|all| - 1] == [e] + rest[..|rest| - 1];
      InterleavedCons(t, e, rest[..|rest| - 1], feeRate);
    }
  }

  // ---- Transfers ----

  /** What the ledger and the status say after a payout is processed: the group is posted exactly when the
      money moved, but the status says `paid` only if the notification went out as well. */
  lemma TransferOutcome(payouts: seq<Payout>, books: Ledger.Books, i: nat, transferred: bool, notified: bool)
    requires i < |payouts| && payouts[i].status.Pending? && payouts[i].amount > 0
    requires Ledger.EntriesOf(books, Ledger.PayoutPaid(i)) == []
    ensures var (payouts', books') := TransferStep(payouts, books, i, transferred, notified);
            && Ledger.EntriesOf(books', Ledger.PayoutPaid(i))
               == (if transferred then Ledger.PayoutLines(payouts[i].amount, payouts[i].hotel) else [])
            && (payouts'[i].status.Paid? <==> transferred && notified)
            && (payouts'[i].status.Failed? && Ledger.EntriesOf(books', Ledger.PayoutPaid(i)) != []
                <==> transferred && !notified)
            && (forall again, said :: TransferStep(payouts', books', i, again, said) == (payouts', books'))
  {
    var lines := Ledger.PayoutLines(payouts[i].amount, payouts[i].hotel);
    Ledger.PayoutAcceptedExactly(payouts[i].amount, payouts[i].hotel);
    Ledger.EntriesOfAppended(books, Ledger.PayoutPaid(i), Ledger.Kept(lines), Ledger.PayoutPaid(i));
    assert [] + lines == lines;
  }

  // ---- Payment, then payout ----

  /** What the hotel is owed on account, credits minus debits. */
  function Owed(books: Ledger.Books, hotel: nat): int {
    -Ledger.Net(books, Ledger.HotelPayable(hotel))
  }

  /** The two postings alone: f of the total is recognised at payment, `net` is paid out. */
  lemma PaidThenPaidOut(books: Ledger.Books, tx: nat, payout: nat, hotel: nat, total: int, net: int, f: Rate)
    requires total > 0 && net > 0 && Share(total, f) <= total
    requires Ledger.EntriesOf(books, Ledger.PaymentSucceeded(tx)) == []
             && Ledger.EntriesOf(books, Ledger.PayoutPaid(payout)) == []
    ensures var paid := Ledger.Post(books, Ledger.PaymentSucceeded(tx), Ledger.PaymentLines(total, hotel, f));
            && paid.Ok?
            && var settled := Ledger.Post(paid.value, Ledger.PayoutPaid(payout), Ledger.PayoutLines(net, hotel));
            && settled.Ok?
            && Owed(settled.value, hotel) - Owed(books, hotel) == total - Share(total, f) - net
  {
    Ledger.PaymentAcceptedExactly(total, hotel, f);
    Ledger.PayoutAcceptedExactly(net, hotel);
    PostedPair(books, Ledger.PaymentSucceeded(tx), Ledger.PaymentLines(total, hotel, f),
               Ledger.PayoutPaid(payout), Ledger.PayoutLines(net, hotel), Ledger.HotelPayable(hotel));
    Ledger.PaymentNet(total, hotel, f, Ledger.HotelPayable(hotel));
    Ledger.PayoutNet(net, hotel, Ledger.HotelPayable(hotel));
  }

  /** An eligible booking, paid at the ledger's rate f and then paid out: the hotel's account changes by the fee
      withheld less the fee recognised, so it closes exactly when the two are equal. */
  lemma SettlementClosesExactly(books: Ledger.Books, tx: nat,
                                payout: nat, hotel: nat, e: Eligible, feeRate: Rate, f: Rate)
    requires 0 < e.total && Share(e.total, f) <= e.total && FeeOf(e, feeRate) < e.total
    requires Ledger.EntriesOf(books, Ledger.PaymentSucceeded(tx)) == []
             && Ledger.EntriesOf(books, Ledger.PayoutPaid(payout)) == []
    ensures var paid := Ledger.Post(books, Ledger.PaymentSucceeded(tx), Ledger.PaymentLines(e.total, hotel, f));
            && paid.Ok?
            && var settled := Ledger.Post(paid.value, Ledger.PayoutPaid(payout),
                                          Ledger.PayoutLines(e.total - FeeOf(e, feeRate), hotel));
            && settled.Ok?
            && Owed(settled.value, hotel) - Owed(books, hotel) == FeeOf(e, feeRate) - Share(e.total, f)
            && (Owed(settled.value, hotel) == Owed(books, hotel) <==> FeeOf(e, feeRate) == Share(e.total, f))
  {
    PaidThenPaidOut(books, tx, payout, hotel, e.total, e.total - FeeOf(e, feeRate), f);
  }

  /** By a booking request the commission on the subtotal is stored: the account ends short by what the fee on
      taxes and service fees comes to, and by nothing without them. */
  lemma RequestShortfall(subtotal: nat, rates: Pricing.Rates, e: Eligible, feeRate: Rate)
    requires e.total == Pricing.Total(subtotal, rates) && e.commission == Some(Share(subtotal, rates.commission))
    ensures FeeOf(e, feeRate) - Share(e.total, rates.commission)
            == Share(subtotal, rates.commission) - Share(e.total, rates.commission) <= 0
    ensures e.total == subtotal ==> FeeOf(e, feeRate) == Share(e.total, rates.commission)
  {
    TotalNotBelowSubtotal(subtotal, rates);
    ShareMonotone(subtotal, e.total, rates.commission);
  }

  /** By a payment intent none is stored.  Read as a zero nothing is withheld, and the account ends short by the
      whole fee recognised; taken for missing, the fee withheld is the run's own rate of the total, and the
      account closes exactly when that and the ledger's rate give the same fee. */
  lemma IntentShortfall(e: Eligible, feeRate: Rate, f: Rate)
    requires 0 <= e.total && (e.commission == Some(0) || e.commission == None)
    ensures e.commission == Some(0) ==> FeeOf(e, feeRate) - Share(e.total, f) == -Share(e.total, f) <= 0
    ensures e.commission == None ==>
              && FeeOf(e, feeRate) - Share(e.total, f) == Share(e.total, feeRate) - Share(e.total, f)
              && (feeRate == Fraction(0, 1) ==> FeeOf(e, feeRate) - Share(e.total, f) == -Share(e.total, f) <= 0)
  {
    Ledger.ShareNotNegative(e.total, f);
    RoundDivIs(e.total * 0, 1, 0);
  }

  lemma TotalNotBelowSubtotal(subtotal: nat, rates: Pricing.Rates)
    ensures subtotal <= Pricing.Total(subtotal, rates)
  {
  }

  lemma PostedPair(books: Ledger.Books, k1: Ledger.GroupKey, l1: seq<Ledger.Line>,
                   k2: Ledger.GroupKey, l2: seq<Ledger.Line>, account: Ledger.Account)
    requires k1 != k2 && Ledger.EntriesOf(books, k1) == [] && Ledger.EntriesOf(books, k2) == []
    requires Ledger.Balanced(Ledger.Kept(l1)) && Ledger.Balanced(Ledger.Kept(l2))
    ensures var first := Ledger.Post(books, k1, l1);
            && first.Ok?
            && var second := Ledger.Post(first.value, k2, l2);
            && second.Ok?
            && Ledger.Net(second.value, account)
               == Ledger.Net(books, account) + Ledger.NetOfLines(Ledger.Kept(l1), account)
                  + Ledger.NetOfLines(Ledger.Kept(l2), account)
  {
    Ledger.EntriesOfAppended(books, k1, Ledger.Kept(l1), k2);
    Ledger.NetAppended(books, k1, Ledger.Kept(l1), account);
    Ledger.NetAppended(books + Ledger.Tagged(k1, Ledger.Kept(l1)), k2, Ledger.Kept(l2), account);
  }
}
