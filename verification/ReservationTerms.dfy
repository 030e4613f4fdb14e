/** Whose holds and bookings there are, for what, and for how long. */
module ReservationTerms {
  import opened Common
  import opened Inventory
  import opened Money
  import opened Reservations
  import opened ReservationPrices
  import ReservationAccounts
  import ReservationIdempotency
  import ReservationPayments
  import ReservationPayouts
  import Pricing
  import Ledger
  import StableJson

  // ---- A hold and its fifteen minutes ----

  /** What a hold request leads to.  It is accepted exactly if it names rooms and nights that are available; the
      hold is the caller's own, and for the next fifteen minutes, not a millisecond longer, it can be used by
      the caller and is not due. */
  lemma NewHoldExactly(cfg: Config, s: State, user: nat, hotel: nat, rooms: seq<RoomQty>, checkIn: int, checkOut: int)
    ensures var (t, reply) := CreateHold(cfg, s, user, hotel, rooms, checkIn, checkOut);
            && (reply.Accepted? <==> rooms != [] && checkIn < checkOut && Accepts(s.rows, rooms, checkIn, checkOut))
            && (reply == Refused(InvalidRooms) <==> rooms == [])
            && (reply == Refused(InvalidDateRange) <==> rooms != [] && checkOut <= checkIn)
            && (reply.Refused? && rooms != [] && checkIn < checkOut ==> reply.error == RoomsNotAvailable)
            && (!reply.Accepted? ==> t == s)
            && (reply.Accepted? ==>
                  && reply.id == |s.holds| && |t.holds| == |s.holds| + 1 && t.holds[..|s.holds|] == s.holds
                  && var h := t.holds[|s.holds|];
                  && h.user == user && h.hotel == hotel
                  && h.rooms == rooms && h.checkIn == checkIn && h.checkOut == checkOut
                  && (forall at, other :: Usable(h, other, at) <==> other == user && at - s.now < 15 * 60 * 1000)
                  && (forall at :: HoldDue(h, at) <==> at - s.now >= 15 * 60 * 1000))
  {
  }

  /** And over every run that follows: it keeps its terms, it can be booked by the user who made it, and by nobody
      else, exactly while it is active and its fifteen minutes last, and expires exactly when it is active and
      they are over. */
  lemma HoldLivesFifteenMinutes(cfg: Config, s: State, user: nat, hotel: nat,
                                rooms: seq<RoomQty>, checkIn: int, checkOut: int, events: seq<Event>, id: KeyId)
    ensures var (held, reply) := CreateHold(cfg, s, user, hotel, rooms, checkIn, checkOut);
            var i, t := |s.holds|, Run(cfg, held, events);
            reply.Accepted? ==>
              && i < |t.holds| && SameHold(held.holds[i], t.holds[i])
              && (BookHold(cfg, t, i, id).1.Accepted?
                  <==> id.user == user && t.holds[i].status.Active? && t.now - s.now < 15 * 60 * 1000)
              && (ExpireHold(t, i).1.Accepted?
                  <==> t.holds[i].status.Active? && t.now - s.now >= 15 * 60 * 1000)
  {
    var held := CreateHold(cfg, s, user, hotel, rooms, checkIn, checkOut).0;
    RunKeepsHolds(cfg, held, events);
  }

  // ---- What ends a hold ----

  /** The user can turn the hold into a booking. */
  predicate Bookable(s: State, i: nat, user: nat) {
    && i < |s.holds| && Usable(s.holds[i], user, s.now)
    && s.holds[i].rooms != [] && s.holds[i].checkIn < s.holds[i].checkOut
  }

  /** The event books hold i: a request that has just begun and named it, or a payment intent of its user for whom
      it is the oldest, accepted by the provider, with one room entry and something to pay. */
  predicate Books(s: State, e: Event, i: nat) {
    match e
    case OnFinishBooking(id) =>
      id in s.keys && s.keys[id].status.InProgress? && s.keys[id].hold == i && Bookable(s, i, id.user)
    case OnPaymentIntent(payer, accepts) =>
      && accepts && OldestActive(s.holds, payer, s.now) == Some(i) && Bookable(s, i, payer)
      && |s.holds[i].rooms| == 1 && s.holds[i].total > 0
    case _ => false
  }

  /** The only events that end an active hold, and how. */
  predicate EndsAs(s: State, e: Event, i: nat, to: HoldStatus)
    requires i < |s.holds|
  {
    && s.holds[i].status.Active?
    && match to
       case Active => false
       case Released => e == OnReleaseHold(i, s.holds[i].user) && s.holds[i].rooms != []
       case Expired => e == OnExpireHold(i) && s.holds[i].expiresAt <= s.now && s.holds[i].rooms != []
       case Completed => Books(s, e, i)
  }

  /** How a hold looks after an event. */
  ghost predicate HoldMoves(s: State, t: State, e: Event, i: nat)
    requires i < |s.holds|
  {
    && i < |t.holds|
    && (forall to | to != s.holds[i].status :: t.holds[i].status == to <==> EndsAs(s, e, i, to))
    && t.holds[i].releasedAt
       == if t.holds[i].status != s.holds[i].status then Some(s.now) else s.holds[i].releasedAt
  }

  lemma FinishMovesHold(cfg: Config, s: State, id: KeyId, i: nat)
    requires i < |s.holds|
    ensures HoldMoves(s, FinishBooking(cfg, s, id).0, OnFinishBooking(id), i)
  {
  }

  lemma IntentMovesHold(s: State, payer: nat, accepts: bool, i: nat)
    requires i < |s.holds|
    ensures HoldMoves(s, CreatePaymentIntent(s, payer, accepts).0, OnPaymentIntent(payer, accepts), i)
  {
  }

  lemma ReleaseMovesHold(s: State, k: nat, user: nat, i: nat)
    requires i < |s.holds|
    ensures HoldMoves(s, ReleaseHold(s, k, user, Released).0, OnReleaseHold(k, user), i)
  {
  }

  lemma ExpiryMovesHold(s: State, k: nat, i: nat)
    requires i < |s.holds|
    ensures HoldMoves(s, ExpireHold(s, k).0, OnExpireHold(k), i)
  {
  }

  lemma CreationMovesNoHold(cfg: Config, s: State, e: Event, i: nat)
    requires i < |s.holds| && e.OnCreateHold?
    ensures HoldMoves(s, Step(cfg, s, e), e, i)
  {
  }

  /** Every event, in every state: a hold ends exactly by a release of its own user, by an expiry that finds it due,
      or by becoming a booking, and the time of its end is the time of that event. */
  lemma HoldEndsExactly(cfg: Config, s: State, e: Event, i: nat)
    requires i < |s.holds|
    ensures HoldMoves(s, Step(cfg, s, e), e, i)
  {
    match e
    case OnCreateHold(_, _, _, _, _) => CreationMovesNoHold(cfg, s, e, i);
    case OnReleaseHold(k, user) => ReleaseMovesHold(s, k, user, i);
    case OnExpireHold(k) => ExpiryMovesHold(s, k, i);
    case OnFinishBooking(id) => FinishMovesHold(cfg, s, id, i);
    case OnPaymentIntent(payer, accepts) => IntentMovesHold(s, payer, accepts, i);
    case _ => OtherEventKeepsHolds(cfg, s, e);
  }

  // ---- A booking and its hold ----

  /** The booking is that of the hold's user, for the hotel that was held, its rooms and its nights; one that a
      request made is of the hold named when its key was first used. */
  ghost predicate OfItsHold(s: State, i: nat)
    requires i < |s.bookings|
  {
    var b := s.bookings[i];
    && b.hold < |s.holds|
    && var h := s.holds[b.hold];
    && b.buyer == h.user && b.hotel == h.hotel && b.checkIn == h.checkIn && b.checkOut == h.checkOut
    && match b.source
       case FromRequest(id) =>
         b.buyer == id.user && id in s.keys && s.keys[id].hold == b.hold && b.rooms == Pricing.QuotedRooms(h.rooms)
       case FromPaymentIntent => b.rooms == h.rooms
  }

  /** Waiting to be paid, for fifteen minutes from now. */
  ghost predicate FreshAt(b: Booking, now: int) {
    && b.status.PendingPayment? && b.tx.TxPending? && !b.charged && !b.roomsReturned && b.cancelledAt.None?
    && forall at :: BookingDue(b, at) <==> at - now >= 15 * 60 * 1000
  }

  /** The one booking that an event added. */
  ghost predicate BookingAdded(s: State, t: State, e: Event)
    requires |t.bookings| > |s.bookings|
  {
    && |t.bookings| == |s.bookings| + 1 && t.bookings[..|s.bookings|] == s.bookings
    && var b := t.bookings[|s.bookings|];
    && Books(s, e, b.hold) && FreshAt(b, s.now) && OfItsHold(t, |s.bookings|)
    && (e.OnFinishBooking? ==> b.source == FromRequest(e.pending))
    && (e.OnPaymentIntent? ==> b.source == FromPaymentIntent)
  }

  /** What an event adds to the bookings. */
  ghost predicate AddsBooking(s: State, t: State, e: Event) {
    && |s.bookings| <= |t.bookings|
    && (forall i :: Books(s, e, i) ==> |t.bookings| > |s.bookings| && t.bookings[|s.bookings|].hold == i)
    && (|t.bookings| > |s.bookings| ==> BookingAdded(s, t, e))
  }

  lemma RequestBooks(cfg: Config, s: State, i: nat, id: KeyId)
    ensures var (t, reply) := BookHold(cfg, s, i, id);
            && (reply.Accepted? <==> Bookable(s, i, id.user))
            && (reply.Accepted? ==> |t.bookings| == |s.bookings| + 1 && t.keys == s.keys
                                    && t.bookings[|s.bookings|].hold == i && reply.id == |s.bookings|)
            && (!reply.Accepted? ==> t == s)
  {
  }

  lemma RequestedBooking(cfg: Config, s: State, i: nat, id: KeyId)
    requires BookHold(cfg, s, i, id).1.Accepted? && id in s.keys && s.keys[id].hold == i
    ensures var t := BookHold(cfg, s, i, id).0;
            && |t.bookings| == |s.bookings| + 1 && t.bookings[..|s.bookings|] == s.bookings
            && FreshAt(t.bookings[|s.bookings|], s.now) && OfItsHold(t, |s.bookings|)
            && t.bookings[|s.bookings|].source == FromRequest(id)
  {
  }

  lemma FinishAddsBooking(cfg: Config, s: State, id: KeyId)
    ensures AddsBooking(s, FinishBooking(cfg, s, id).0, OnFinishBooking(id))
  {
    if id in s.keys && s.keys[id].status.InProgress? {
      RequestBooks(cfg, s, s.keys[id].hold, id);
      if BookHold(cfg, s, s.keys[id].hold, id).1.Accepted? {
        RequestedBooking(cfg, s, s.keys[id].hold, id);
      }
    }
  }

  lemma IntentAddsBooking(s: State, payer: nat, accepts: bool)
    ensures AddsBooking(s, CreatePaymentIntent(s, payer, accepts).0, OnPaymentIntent(payer, accepts))
  {
  }

  /** Every event, in every state: a booking is made exactly by the two ways to book, from a hold that its user
      could still use; it is that user's, of that hold, and has fifteen minutes to be paid. */
  lemma BookingMadeExactly(cfg: Config, s: State, e: Event)
    ensures AddsBooking(s, Step(cfg, s, e), e)
  {
    match e
    case OnFinishBooking(id) => FinishAddsBooking(cfg, s, id);
    case OnPaymentIntent(payer, accepts) => IntentAddsBooking(s, payer, accepts);
    case _ => ReservationPayments.NoNewBooking(cfg, s, e);
  }

  lemma StepKeepsOfItsHold(cfg: Config, s: State, e: Event, i: nat)
    requires i < |s.bookings| ==> OfItsHold(s, i)
    ensures i < |Step(cfg, s, e).bookings| ==> OfItsHold(Step(cfg, s, e), i)
  {
    if i < |s.bookings| {
      ReservationAccounts.StepKeepsTerms(cfg, s, e, i);
      StepKeepsHolds(cfg, s, e);
      if s.bookings[i].source.FromRequest? {
        ReservationIdempotency.StepKeepsRecord(cfg, s, e, s.bookings[i].source.id);
      }
    } else {
      BookingMadeExactly(cfg, s, e);
    }
  }

  /** In every run: each booking is the buyer's own hold turned into a booking, for the hotel, the rooms and the
      nights of that hold; one made by a request is that of the user of the key, and of the hold that the
      key's first call named. */
  lemma {:induction false} BookingIsOfItsHold(cfg: Config, now: int, rows: Table, events: seq<Event>, i: nat)
    ensures var s := Run(cfg, Start(now, rows), events); i < |s.bookings| ==> OfItsHold(s, i)
  {
    if events != [] {
      var n := |events| - 1;
      BookingIsOfItsHold(cfg, now, rows, events[..n], i);
      StepKeepsOfItsHold(cfg, Run(cfg, Start(now, rows), events[..n]), events[n], i);
    }
  }

  /** The hold that a key's first call names is the one it books, if it ever books one. */
  lemma RequestBooksNamedHold(cfg: Config, now: int, rows: Table, before: seq<Event>,
                              id: KeyId, body: StableJson.Json, hold: nat, after: seq<Event>, i: nat)
    requires id.key != "" && id !in Run(cfg, Start(now, rows), before).keys
    ensures var t := Run(cfg, Start(now, rows), before + [OnBeginBooking(id, body, hold)] + after);
            i < |t.bookings| && t.bookings[i].source == FromRequest(id) ==>
              t.bookings[i].hold == hold && hold < |t.holds| && t.bookings[i].buyer == id.user == t.holds[hold].user
  {
    var first := before + [OnBeginBooking(id, body, hold)];
    var begun := Run(cfg, Start(now, rows), first);
    RunSnoc(cfg, Start(now, rows), before, OnBeginBooking(id, body, hold));
    RunAppend(cfg, Start(now, rows), first, after);
    ReservationIdempotency.RunKeepsRecord(cfg, begun, after, id);
    BookingIsOfItsHold(cfg, now, rows, first + after, i);
  }

  // ---- Holds and bookings, one to one ----

  /** Some booking was made from hold i. */
  ghost predicate Booked(s: State, i: nat) {
    exists k | 0 <= k < |s.bookings| :: s.bookings[k].hold == i
  }

  lemma StepKeepsCompletedBooked(cfg: Config, s: State, e: Event, i: nat)
    requires i < |s.holds| && s.holds[i].status.Completed? ==> Booked(s, i)
    ensures var t := Step(cfg, s, e); i < |t.holds| && t.holds[i].status.Completed? ==> Booked(t, i)
  {
    var t := Step(cfg, s, e);
    if i < |s.holds| {
      HoldEndsExactly(cfg, s, e, i);
      BookingMadeExactly(cfg, s, e);
      if s.holds[i].status.Completed? {
        var k :| 0 <= k < |s.bookings| && s.bookings[k].hold == i;
        ReservationAccounts.StepKeepsTerms(cfg, s, e, k);
        assert t.bookings[k].hold == i;
      } else if t.holds[i].status.Completed? {
        assert EndsAs(s, e, i, HoldStatus.Completed) && Books(s, e, i);
        assert t.bookings[|s.bookings|].hold == i;
      }
    } else if i < |t.holds| {
      NewHoldIsActive(cfg, s, e);
    }
  }

  lemma NewHoldIsActive(cfg: Config, s: State, e: Event)
    ensures var t := Step(cfg, s, e);
            |s.holds| <= |t.holds| <= |s.holds| + 1 && (|t.holds| > |s.holds| ==> t.holds[|s.holds|].status.Active?)
  {
    if !e.OnCreateHold? {
      OnlyCreateHoldAdds(cfg, s, e);
    }
  }

  /** In every run a hold is completed exactly if a booking was made from it, and then exactly one. */
  lemma {:induction false} CompletedExactlyWhenBooked(cfg: Config, now: int, rows: Table, events: seq<Event>, i: nat)
    ensures var s := Run(cfg, Start(now, rows), events);
            i < |s.holds| ==>
              && (s.holds[i].status.Completed? <==> Booked(s, i))
              && forall j, k | 0 <= j < k < |s.bookings| && s.bookings[j].hold == i :: s.bookings[k].hold != i
  {
    ReservationIdempotency.RunKeepsLinks(cfg, now, rows, events);
    CompletedIsBooked(cfg, now, rows, events, i);
  }

  lemma {:induction false} CompletedIsBooked(cfg: Config, now: int, rows: Table, events: seq<Event>, i: nat)
    ensures var s := Run(cfg, Start(now, rows), events);
            i < |s.holds| && s.holds[i].status.Completed? ==> Booked(s, i)
  {
    if events != [] {
      var n := |events| - 1;
      CompletedIsBooked(cfg, now, rows, events[..n], i);
      StepKeepsCompletedBooked(cfg, Run(cfg, Start(now, rows), events[..n]), events[n], i);
    }
  }

  // ---- How a request begins and ends ----

  /** A request begins exactly if it brings a key that its user has not used yet; all that changes is the record of
      that key, which names the hold.  Without a key it is refused. */
  lemma RequestBeginsExactly(s: State, id: KeyId, body: StableJson.Json, hold: nat)
    ensures var (t, reply) := BeginBooking(s, id, body, hold);
            && (reply == Refused(KeyRequired) <==> id.key == "")
            && (reply.Unchanged? <==> id.key != "" && id !in s.keys)
            && (!reply.Unchanged? ==> t == s)
            && (reply.Unchanged? ==>
                  && t == s.(keys := t.keys) && t.keys.Keys == s.keys.Keys + {id}
                  && t.keys[id].status.InProgress? && t.keys[id].hold == hold
                  && forall other | other in s.keys :: t.keys[other] == s.keys[other])
  {
  }

  /** A request that has begun ends: completed, with the new booking and its total, exactly if the hold it names can
      be booked by its user, and failed otherwise. */
  lemma RequestSettlesExactly(cfg: Config, s: State, id: KeyId)
    requires id in s.keys && s.keys[id].status.InProgress?
    ensures var t := FinishBooking(cfg, s, id).0;
            && id in t.keys
            && (t.keys[id].status.FailedKey? <==> !Bookable(s, s.keys[id].hold, id.user))
            && (!t.keys[id].status.FailedKey? ==>
                  && |t.bookings| == |s.bookings| + 1
                  && t.keys[id].status == Done(Response(|s.bookings|, t.bookings[|s.bookings|].total)))
            && forall other | other != id :: (other in t.keys <==> other in s.keys)
                && (other in s.keys ==> t.keys[other] == s.keys[other])
  {
  }

  // ---- Refusals ----

  /** Why a request for a booking is refused, and that a refusal changes nothing. */
  lemma BookingRefusedExactly(cfg: Config, s: State, i: nat, id: KeyId)
    requires i < |s.holds| ==> s.holds[i].rooms != [] && s.holds[i].checkIn < s.holds[i].checkOut
    ensures var (t, reply) := BookHold(cfg, s, i, id);
            && (reply == Refused(HoldNotFound) <==> |s.holds| <= i)
            && (reply == Refused(Forbidden) <==> i < |s.holds| && s.holds[i].user != id.user)
            && (reply == Refused(HoldNotActive)
                <==> i < |s.holds| && s.holds[i].user == id.user && !s.holds[i].status.Active?)
            && (reply == Refused(HoldExpired)
                <==> i < |s.holds| && s.holds[i].user == id.user && HoldDue(s.holds[i], s.now))
            && (reply.Refused? ==> t == s)
  {
  }

  /** The same for the release of a hold. */
  lemma ReleaseRefusedExactly(s: State, i: nat, user: nat)
    requires i < |s.holds| ==> s.holds[i].rooms != []
    ensures var (t, reply) := ReleaseHold(s, i, user, Released);
            && (reply == Refused(HoldNotFound) <==> |s.holds| <= i)
            && (reply == Refused(Forbidden) <==> i < |s.holds| && s.holds[i].user != user)
            && (reply == Refused(HoldNotActive)
                <==> i < |s.holds| && s.holds[i].user == user && !s.holds[i].status.Active?)
            && (reply.Refused? ==> t == s)
  {
  }

  /** The same for a payment intent: there is no live hold, or it has no rooms, or it costs nothing, or else the
      provider refuses, the dates are empty, or it names more than one room entry. */
  lemma IntentRefusedExactly(s: State, user: nat, accepts: bool)
    ensures var (t, reply) := CreatePaymentIntent(s, user, accepts);
            var found := OldestActive(s.holds, user, s.now);
            && (reply == Refused(NoActiveHold) <==> forall i | 0 <= i < |s.holds| :: !Usable(s.holds[i], user, s.now))
            && (found.Some? ==>
                  var h := s.holds[found.value];
                  && (reply == Refused(HoldHasNoRooms) <==> h.rooms == [])
                  && (reply == Refused(InvalidHoldAmount) <==> h.rooms != [] && h.total <= 0)
                  && (reply == Refused(PaymentCreationFailed)
                      <==> h.rooms != [] && h.total > 0
                           && (!accepts || h.checkOut <= h.checkIn || |h.rooms| > 1)))
            && (reply.Refused? ==> t == s)
  {
  }

  // ---- Who earns from a payment ----

  /** In every run, a payment that is posted for a booking credits the hotel that was held, by the total less the
      fee, and no other hotel. */
  lemma PaymentCreditsHeldHotel(cfg: Config, now: int, rows: Table, events: seq<Event>, i: nat, hotel: nat)
    ensures var s := Run(cfg, Start(now, rows), events);
            var entries := Ledger.EntriesOf(s.books, Ledger.PaymentSucceeded(i));
            i < |s.bookings| && entries != [] ==>
              && s.bookings[i].hold < |s.holds|
              && Ledger.NetOfLines(entries, Ledger.HotelPayable(hotel))
                 == if hotel == s.holds[s.bookings[i].hold].hotel
                    then Share(s.bookings[i].total, cfg.feeRate) - s.bookings[i].total else 0
  {
    var s := Run(cfg, Start(now, rows), events);
    var entries := Ledger.EntriesOf(s.books, Ledger.PaymentSucceeded(i));
    if i < |s.bookings| && entries != [] {
      var b := s.bookings[i];
      BookingIsOfItsHold(cfg, now, rows, events, i);
      ReservationPayouts.RunKeepsAccounted(cfg, now, rows, events, i);
      ReservationPayments.RunKeepsBalance(cfg, now, rows, events);
      assert Ledger.Balanced(entries);
      Ledger.PaymentAcceptedExactly(b.total, b.hotel, cfg.feeRate);
      Ledger.PaymentNet(b.total, b.hotel, cfg.feeRate, Ledger.HotelPayable(hotel));
    }
  }
}
