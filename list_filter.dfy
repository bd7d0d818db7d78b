/**
 * Declined-event filtering of the `list` command (cmd/list.go): an event is
 * dropped when the authenticated user's own attendee record says "declined".
 */
module ListFilter {
  import opened Events

  const DeclinedStatus := "declined"

  /** The attendee is the authenticated user and has declined. */
  predicate SelfDeclined(a: Attendee) {
    a.self && a.responseStatus == DeclinedStatus
  }

  /** The search loop of isDeclined over an attendee list, stopping at the first hit. */
  function HasSelfDeclined(attendees: seq<Attendee>): (r: bool)
    ensures r <==> exists a :: a in attendees && SelfDeclined(a)
  {
    if |attendees| == 0 then false
    else if SelfDeclined(attendees[0]) then true
    else
      assert forall a :: a in attendees <==> a == attendees[0] || a in attendees[1..];
      HasSelfDeclined(attendees[1..])
  }

  /** isDeclined: some attendee record is the user's own and says "declined". */
  function IsDeclined(e: Event): (r: bool)
    ensures r <==> exists a :: a in e.attendees && a.self && a.responseStatus == DeclinedStatus
  {
    HasSelfDeclined(e.attendees)
  }

  /** Reference definition of the filter: keep the events that are not declined, in order. */
  function NotDeclined(events: seq<Event>): seq<Event>
  {
    if |events| == 0 then []
    else
      var last := events[|events| - 1];
      NotDeclined(events[..|events| - 1]) + (if IsDeclined(last) then [] else [last])
  }

  /**
   * filterDeclinedEvents: appends every event that is not declined to a
   * fresh slice, in input order.
   */
  method FilterDeclinedEvents(events: seq<Event>) returns (filtered: seq<Event>)
    ensures filtered == NotDeclined(events)
  {
    filtered := [];
    var i := 0;
    while i < |events|
      invariant 0 <= i <= |events|
      invariant filtered == NotDeclined(events[..i])
    {
      var e := events[i];
      assert events[..i + 1][..i] == events[..i];
      if !IsDeclined(e) {
        filtered := filtered + [e];
      }
      i := i + 1;
    }
    assert events[..|events|] == events;
  }

  /** An event is kept exactly when it is in the input and not declined. */
  lemma {:induction false} NotDeclinedMembership(events: seq<Event>, e: Event)
    ensures e in NotDeclined(events) <==> e in events && !IsDeclined(e)
    decreases |events|
  {
    if |events| > 0 {
      var init, last := events[..|events| - 1], events[|events| - 1];
      NotDeclinedMembership(init, e);
      assert events == init + [last];
    }
  }

  /** Only a self attendee can make an event declined; without one it is kept. */
  lemma KeptWithoutSelfAttendee(events: seq<Event>, e: Event)
    requires e in events
    requires forall a :: a in e.attendees ==> !a.self
    ensures e in NotDeclined(events)
  {
    NotDeclinedMembership(events, e);
  }

  /** An attendee that is not the user, whatever its response, does not change whether the event is declined. */
  lemma OthersDeclineDoesNotCount(e: Event, a: Attendee)
    requires !a.self
    ensures IsDeclined(e.(attendees := e.attendees + [a])) == IsDeclined(e)
  {
    var attendees := e.attendees + [a];
    assert forall b :: b in attendees <==> b in e.attendees || b == a;
  }

  lemma {:induction false} NotDeclinedLength(events: seq<Event>)
    ensures |NotDeclined(events)| <= |events|
    decreases |events|
  {
    if |events| > 0 {
      NotDeclinedLength(events[..|events| - 1]);
    }
  }

  /** The filter distributes over concatenation, so it keeps relative order. */
  lemma {:induction false} NotDeclinedAppend(xs: seq<Event>, ys: seq<Event>)
    ensures NotDeclined(xs + ys) == NotDeclined(xs) + NotDeclined(ys)
    decreases |ys|
  {
    if |ys| == 0 {
      assert xs + ys == xs;
    } else {
      var init, last := ys[..|ys| - 1], ys[|ys| - 1];
      assert (xs + ys)[..|xs + ys| - 1] == xs + init;
      assert (xs + ys)[|xs + ys| - 1] == last;
      NotDeclinedAppend(xs, init);
    }
  }

  /** When nothing in the input is declined the filter returns it unchanged. */
  lemma {:induction false} NotDeclinedKeepsAll(events: seq<Event>)
    requires forall e :: e in events ==> !IsDeclined(e)
    ensures NotDeclined(events) == events
    decreases |events|
  {
    if |events| > 0 {
      var init, last := events[..|events| - 1], events[|events| - 1];
      assert events == init + [last];
      forall e | e in init
        ensures !IsDeclined(e)
      {
        assert e in events;
      }
      NotDeclinedKeepsAll(init);
      assert !IsDeclined(last);
    }
  }

  /** Filtering twice is filtering once. */
  lemma NotDeclinedIdempotent(events: seq<Event>)
    ensures NotDeclined(NotDeclined(events)) == NotDeclined(events)
  {
    forall e | e in NotDeclined(events)
      ensures !IsDeclined(e)
    {
      NotDeclinedMembership(events, e);
    }
    NotDeclinedKeepsAll(NotDeclined(events));
  }

  /** The user's own "declined" drops an event; the same event accepted is kept. */
  lemma DeclinedVersusAccepted(e: Event)
    requires e.attendees == [Attendee(true, DeclinedStatus)]
    ensures NotDeclined([e]) == []
    ensures NotDeclined([e.(attendees := [Attendee(true, "accepted")])]) == [e.(attendees := [Attendee(true, "accepted")])]
  {
    assert SelfDeclined(e.attendees[0]);
    assert [e][..0] == [];
    var kept := e.(attendees := [Attendee(true, "accepted")]);
    assert [kept][..0] == [];
    assert !SelfDeclined(kept.attendees[0]) && kept.attendees[1..] == [];
  }
}
