/** Idempotent booking creation, over every run: no assumption on the events is made here. */
module ReservationIdempotency {
  import opened Common
  import opened Inventory
  import opened Reservations
  import StableJson

  /** Each booking stands for a completed hold of its own; a completed record and its booking point at each other. */
  ghost predicate Linked(s: State) {
    && (forall i | 0 <= i < |s.bookings| ::
        s.bookings[i].hold < |s.holds| && s.holds[s.bookings[i].hold].status.Completed?)
    && (forall i, j | 0 <= i < j < |s.bookings| :: s.bookings[i].hold != s.bookings[j].hold)
    && (forall i | 0 <= i < |s.bookings| && s.bookings[i].source.FromRequest? ::
        Answered(s, s.bookings[i].source.id, i))
    && (forall id | id in s.keys && s.keys[id].status.Done? :: Produced(s, id))
  }

  ghost predicate Answered(s: State, id: KeyId, i: nat)
    requires i < |s.bookings|
  {
    id in s.keys && s.keys[id].status == Done(Response(i, s.bookings[i].total))
  }

  ghost predicate Produced(s: State, id: KeyId)
    requires id in s.keys && s.keys[id].status.Done?
  {
    var i := s.keys[id].status.response.booking;
    i < |s.bookings| && s.bookings[i].source == FromRequest(id)
  }

  /** Steps that neither create bookings nor touch completed holds or records. */
  ghost predicate SameLinks(s: State, t: State) {
    && t.keys == s.keys
    && |t.bookings| == |s.bookings|
    && (forall i | 0 <= i < |s.bookings| ::
          t.bookings[i].hold == s.bookings[i].hold && t.bookings[i].source == s.bookings[i].source
              && t.bookings[i].total == s.bookings[i].total)
    && |s.holds| <= |t.holds|
    && (forall i | 0 <= i < |s.holds| && s.holds[i].status.Completed? :: t.holds[i].status.Completed?)
  }

  lemma SameLinksKeep(s: State, t: State)
    requires Linked(s) && SameLinks(s, t)
    ensures Linked(t)
  {
  }

  lemma HoldStepSameLinks(cfg: Config, s: State, e: Event)
    requires e.Tick? || e.OnCreateHold? || e.OnReleaseHold? || e.OnExpireHold? || e.OnUpdateRow?
    ensures SameLinks(s, Step(cfg, s, e))
  {
  }

  lemma BookingStepSameLinks(cfg: Config, s: State, e: Event)
    requires e.OnExpireBooking? || e.OnRefundSucceeded?
    ensures SameLinks(s, Step(cfg, s, e))
  {
  }

  lemma AdvanceStepSameLinks(cfg: Config, s: State, e: Event)
    requires e.OnAdvanceStays?
    ensures SameLinks(s, Step(cfg, s, e))
  {
  }

  lemma PaymentStepSameLinks(cfg: Config, s: State, e: Event)
    requires e.OnPaymentSucceeded? || e.OnPaymentFailed?
    ensures SameLinks(s, Step(cfg, s, e))
  {
  }

  lemma RefundSameLinks(cfg: Config, s: State, i: nat, cents: int, provider: ProviderRefund)
    requires i < |s.bookings|
    ensures SameLinks(s, ProcessRefund(cfg, s, i, cents, provider))
  {
  }

  lemma CancelStepSameLinks(cfg: Config, s: State, e: Event)
    requires e.OnCancel?
    ensures SameLinks(s, Step(cfg, s, e))
  {
    if e.cancelled < |s.bookings| && e.refundCents.Some? {
      RefundSameLinks(cfg, s, e.cancelled, e.refundCents.value, e.provider);
    }
  }

  /** Every event except the two halves of a request and a payment intent. */
  lemma OtherStepSameLinks(cfg: Config, s: State, e: Event)
    requires !e.OnBeginBooking? && !e.OnFinishBooking? && !e.OnPaymentIntent?
    ensures SameLinks(s, Step(cfg, s, e))
  {
    if e.Tick? || e.OnCreateHold? || e.OnReleaseHold? || e.OnExpireHold? || e.OnUpdateRow? {
      HoldStepSameLinks(cfg, s, e);
    } else if e.OnCancel? {
      CancelStepSameLinks(cfg, s, e);
    } else if e.OnPaymentSucceeded? || e.OnPaymentFailed? {
      PaymentStepSameLinks(cfg, s, e);
    } else if e.OnAdvanceStays? {
      AdvanceStepSameLinks(cfg, s, e);
    } else {
      BookingStepSameLinks(cfg, s, e);
    }
  }

  lemma ConvertKeepsLinks(s: State, i: nat, b: Booking, t: State)
    requires Linked(s) && i < |s.holds| && s.holds[i].status.Active? && b.hold == i
    requires t == Convert(s, i, b).(keys := t.keys)
    requires b.source.FromRequest? ==>
               && b.source.id in s.keys && s.keys[b.source.id].status.InProgress?
               && Answered(t, b.source.id, |s.bookings|)
               && t.keys == s.keys[b.source.id := t.keys[b.source.id]]
    requires b.source.FromPaymentIntent? ==> t.keys == s.keys
    ensures Linked(t)
  {
    forall j | 0 <= j < |t.bookings| && t.bookings[j].source.FromRequest?
      ensures Answered(t, t.bookings[j].source.id, j)
    {
      if j < |s.bookings| {
        assert Answered(s, s.bookings[j].source.id, j);
      }
    }
    forall id | id in t.keys && t.keys[id].status.Done? ensures Produced(t, id) {
      if b.source != FromRequest(id) {
        assert Produced(s, id);
      }
    }
  }

  lemma FinishBookingKeepsLinks(cfg: Config, s: State, id: KeyId)
    requires Linked(s)
    ensures Linked(FinishBooking(cfg, s, id).0)
  {
    if id in s.keys && s.keys[id].status.InProgress? {
      var record := s.keys[id];
      var (after, reply) := BookHold(cfg, s, record.hold, id);
      var t := FinishBooking(cfg, s, id).0;
      if reply.Accepted? {
        ConvertKeepsLinks(s, record.hold, after.bookings[|s.bookings|], t);
      } else {
        RecordChangeKeepsLinks(s, t, id);
      }
    }
  }

  lemma RecordChangeKeepsLinks(s: State, t: State, id: KeyId)
    requires Linked(s) && id in t.keys && !t.keys[id].status.Done?
    requires id in s.keys ==> s.keys[id].status.InProgress?
    requires t == s.(keys := s.keys[id := t.keys[id]])
    ensures Linked(t)
  {
  }

  lemma StepKeepsLinks(cfg: Config, s: State, e: Event)
    requires Linked(s)
    ensures Linked(Step(cfg, s, e))
  {
    var t := Step(cfg, s, e);
    match e
    case OnBeginBooking(id, body, hold) =>
      if t != s {
        RecordChangeKeepsLinks(s, t, id);
      }
    case OnFinishBooking(id) => FinishBookingKeepsLinks(cfg, s, id);
    case OnPaymentIntent(user, accepts) =>
      if t != s {
        var i := OldestActive(s.holds, user, s.now).value;
        ConvertKeepsLinks(s, i, BookingFromIntent(s, i), t);
      }
    case _ =>
      OtherStepSameLinks(cfg, s, e);
      SameLinksKeep(s, t);
  }

  lemma {:induction false} RunKeepsLinks(cfg: Config, now: int, rows: Table, events: seq<Event>)
    ensures Linked(Run(cfg, Start(now, rows), events))
  {
    if events != [] {
      var n := |events| - 1;
      RunKeepsLinks(cfg, now, rows, events[..n]);
      StepKeepsLinks(cfg, Run(cfg, Start(now, rows), events[..n]), events[n]);
    }
  }

  /** After every run, two different bookings never share a hold and never answer the same idempotency key. */
  lemma AtMostOneBooking(cfg: Config, now: int, rows: Table, events: seq<Event>, i: nat, j: nat)
    requires i < j < |Run(cfg, Start(now, rows), events).bookings|
    ensures var bookings := Run(cfg, Start(now, rows), events).bookings;
            && bookings[i].hold != bookings[j].hold
            && (bookings[i].source.FromRequest? ==> bookings[i].source != bookings[j].source)
  {
    var s := Run(cfg, Start(now, rows), events);
    RunKeepsLinks(cfg, now, rows, events);
    assert s.bookings[i].source.FromRequest? ==> Answered(s, s.bookings[i].source.id, i);
    assert s.bookings[j].source.FromRequest? ==> Answered(s, s.bookings[j].source.id, j);
  }

  /** A record keeps its request forever, and its response once it has one. */
  ghost predicate RecordKept(s: State, t: State, id: KeyId) {
    id in s.keys ==>
      && id in t.keys
      && t.keys[id].hash == s.keys[id].hash && t.keys[id].hold == s.keys[id].hold
      && (!s.keys[id].status.InProgress? ==> t.keys[id].status == s.keys[id].status)
  }

  lemma StepKeepsRecord(cfg: Config, s: State, e: Event, id: KeyId)
    ensures RecordKept(s, Step(cfg, s, e), id)
  {
    match e
    case OnBeginBooking(_, _, _) =>
    case OnFinishBooking(_) =>
    case OnPaymentIntent(_, _) =>
    case _ => OtherStepSameLinks(cfg, s, e);
  }

  lemma {:induction false} RunKeepsRecord(cfg: Config, s: State, events: seq<Event>, id: KeyId)
    ensures RecordKept(s, Run(cfg, s, events), id)
  {
    if events != [] {
      var n := |events| - 1;
      RunKeepsRecord(cfg, s, events[..n], id);
      StepKeepsRecord(cfg, Run(cfg, s, events[..n]), events[n], id);
    }
  }

  /** What a key answers after any run that follows its first use: the stored response, for a body equal to
      the first one up to the order of object keys; a refusal for every other body and while the first
      request is unfinished or has failed.  Asking changes nothing. */
  lemma KeyAnswersForItsBody(cfg: Config, s: State, id: KeyId, body: StableJson.Json, hold: nat,
                             events: seq<Event>, again: StableJson.Json, otherHold: nat)
    requires id.key != "" && id !in s.keys
    requires StableJson.WellFormed(body) && StableJson.WellFormed(again)
    ensures var t := Run(cfg, BeginBooking(s, id, body, hold).0, events);
            && id in t.keys
            && BeginBooking(t, id, again, otherHold) ==
                 (t, if !StableJson.Same(body, again) then Refused(KeyReused)
                     else if t.keys[id].status.Done? then Replayed(t.keys[id].status.response)
                     else Refused(RequestInProgress))
  {
    RunKeepsRecord(cfg, BeginBooking(s, id, body, hold).0, events, id);
    StableJson.CanonicalForm(body, again);
  }

  /** A key whose first attempt failed has booked nothing and never will: after every further run no booking
      answers it, its record still says so, and asking again with any body changes nothing. */
  lemma FailedKeyBooksNothing(cfg: Config, now: int, rows: Table,
                              events: seq<Event>, id: KeyId, more: seq<Event>, body: StableJson.Json, hold: nat)
    requires id.key != ""
    ensures var s := Run(cfg, Start(now, rows), events); var t := Run(cfg, Start(now, rows), events + more);
            id in s.keys && s.keys[id].status.FailedKey? ==>
              && id in t.keys && t.keys[id].status.FailedKey?
              && (forall i | 0 <= i < |t.bookings| :: t.bookings[i].source != FromRequest(id))
              && BeginBooking(t, id, body, hold).0 == t && FinishBooking(cfg, t, id) == (t, Unchanged)
  {
    var s, t := Run(cfg, Start(now, rows), events), Run(cfg, Start(now, rows), events + more);
    if id in s.keys && s.keys[id].status.FailedKey? {
      RunAppend(cfg, Start(now, rows), events, more);
      RunKeepsRecord(cfg, s, more, id);
      RunKeepsLinks(cfg, now, rows, events + more);
      forall i | 0 <= i < |t.bookings| ensures t.bookings[i].source != FromRequest(id) {
        assert t.bookings[i].source.FromRequest? ==> Answered(t, t.bookings[i].source.id, i);
      }
    }
  }

  /** Once completed, a key replays the same response after every further run. */
  lemma ReplayIsStable(cfg: Config, s: State, id: KeyId, events: seq<Event>, body: StableJson.Json, hold: nat)
    requires id in s.keys && s.keys[id].status.Done? && BeginBooking(s, id, body, hold).1.Replayed?
    ensures BeginBooking(Run(cfg, s, events), id, body, hold).1 == BeginBooking(s, id, body, hold).1
  {
    RunKeepsRecord(cfg, s, events, id);
  }
}
