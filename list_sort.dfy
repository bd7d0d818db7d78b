/**
 * Event ordering of the `list` command (cmd/list.go): sortEvents reorders
 * the event slice in place with sort.Slice, under the comparator the sort
 * key selects. sort.Slice is not stable, so only the order of keys is
 * promised, never the order among events with equal keys.
 */
module ListSort {
  import opened Events
  import StringOrder

  const StartKey := "start"
  const UpdatedKey := "updated"

  /**
   * Start.DateTime of an event. The source dereferences Start without a nil
   * check; SortEvents requires it to be set, so the "" for nil is never read.
   */
  function StartDateTime(e: Event): string {
    if e.start.Some? then e.start.value.dateTime else ""
  }

  /** The event has a timed (not all-day) start. */
  predicate Timed(e: Event) {
    StartDateTime(e) != ""
  }

  /**
   * The `less(x, y)` function sort.Slice is given for each sort key: under
   * "start" untimed events come before timed ones and timed starts compare
   * as strings; under "updated" the later Updated string comes first; any
   * other key orders nothing.
   */
  function Less(sortBy: string, x: Event, y: Event): (r: bool)
    ensures r ==> sortBy == StartKey || sortBy == UpdatedKey
    ensures x == y ==> !r
    ensures sortBy == StartKey && !Timed(x) && Timed(y) ==> r
    ensures sortBy == StartKey && r ==> Timed(y)
    ensures sortBy == StartKey && Timed(x) && Timed(y) ==> (r <==> StringOrder.Less(StartDateTime(x), StartDateTime(y)))
    ensures sortBy == UpdatedKey ==> (r <==> StringOrder.Less(y.updated, x.updated))
  {
    StringOrder.LessIrreflexive(StartDateTime(x));
    StringOrder.LessIrreflexive(x.updated);
    if sortBy == StartKey then
      if Timed(x) && Timed(y) then StringOrder.Less(StartDateTime(x), StartDateTime(y))
      else Timed(y)
    else if sortBy == UpdatedKey then
      StringOrder.Less(y.updated, x.updated)
    else
      false
  }

  lemma LessAsymmetric(sortBy: string, x: Event, y: Event)
    requires Less(sortBy, x, y)
    ensures !Less(sortBy, y, x)
  {
    if sortBy == StartKey && Timed(x) && Timed(y) {
      StringOrder.LessAsymmetric(StartDateTime(x), StartDateTime(y));
    } else if sortBy == UpdatedKey {
      StringOrder.LessAsymmetric(y.updated, x.updated);
    }
  }

  /** "Not after" is transitive: each comparator is a strict weak order. */
  lemma NotAfterTransitive(sortBy: string, x: Event, y: Event, z: Event)
    requires !Less(sortBy, y, x) && !Less(sortBy, z, y)
    ensures !Less(sortBy, z, x)
  {
    if sortBy == StartKey && Timed(x) && Timed(y) && Timed(z) {
      var a, b, c := StartDateTime(x), StartDateTime(y), StartDateTime(z);
      StringOrder.LessTotal(a, b);
      StringOrder.LessTotal(b, c);
      if StringOrder.Less(c, a) {
        if StringOrder.Less(a, b) {
          StringOrder.LessTransitive(c, a, b);
          StringOrder.LessAsymmetric(c, b);
        }
      }
    } else if sortBy == UpdatedKey {
      var a, b, c := x.updated, y.updated, z.updated;
      StringOrder.LessTotal(a, b);
      StringOrder.LessTotal(b, c);
      if StringOrder.Less(a, c) {
        if StringOrder.Less(b, a) {
          StringOrder.LessTransitive(b, a, c);
          StringOrder.LessAsymmetric(b, c);
        }
      }
    }
  }

  /** No element is smaller than its left neighbour. */
  predicate AdjacentSorted(sortBy: string, s: seq<Event>) {
    forall k :: 0 < k < |s| ==> !Less(sortBy, s[k], s[k - 1])
  }

  /** No element is smaller than any element to its left. */
  predicate Sorted(sortBy: string, s: seq<Event>) {
    forall i, j :: 0 <= i < j < |s| ==> !Less(sortBy, s[j], s[i])
  }

  /**
   * The "start" order: every event without a timed start comes before every
   * timed one, and timed starts never decrease as strings.
   */
  predicate StartOrdered(s: seq<Event>) {
    (forall i, j :: 0 <= i < j < |s| && Timed(s[i]) ==> Timed(s[j]))
    && (forall i, j :: 0 <= i < j < |s| && Timed(s[i]) && Timed(s[j]) ==>
          !StringOrder.Less(StartDateTime(s[j]), StartDateTime(s[i])))
  }

  /** The "updated" order: Updated strings never increase. */
  predicate UpdatedOrdered(s: seq<Event>) {
    forall i, j :: 0 <= i < j < |s| ==> !StringOrder.Less(s[i].updated, s[j].updated)
  }

  lemma {:induction false} AdjacentToSorted(sortBy: string, s: seq<Event>)
    requires AdjacentSorted(sortBy, s)
    ensures Sorted(sortBy, s)
    decreases |s|
  {
    if |s| > 1 {
      var init := s[..|s| - 1];
      AdjacentToSorted(sortBy, init);
      var n := |s| - 1;
      forall i | 0 <= i < n
        ensures !Less(sortBy, s[n], s[i])
      {
        if i < n - 1 {
          assert init[i] == s[i] && init[n - 1] == s[n - 1];
          NotAfterTransitive(sortBy, s[i], s[n - 1], s[n]);
        }
      }
    }
  }

  lemma SortedStartOrdered(s: seq<Event>)
    requires Sorted(StartKey, s)
    ensures StartOrdered(s)
  {
  }

  lemma SortedUpdatedOrdered(s: seq<Event>)
    requires Sorted(UpdatedKey, s)
    ensures UpdatedOrdered(s)
  {
  }

  /** Swaps two array elements, keeping the multiset of events. */
  method Swap(a: array<Event>, i: nat, j: nat)
    requires i < a.Length && j < a.Length
    modifies a
    ensures a[i] == old(a[j]) && a[j] == old(a[i])
    ensures forall k :: 0 <= k < a.Length && k != i && k != j ==> a[k] == old(a[k])
    ensures multiset(a[..]) == multiset(old(a[..]))
  {
    a[i], a[j] := a[j], a[i];
  }

  /** Sorts `a` in place under `Less(sortBy, _, _)`, as sort.Slice does. */
  method SortInPlace(a: array<Event>, sortBy: string)
    modifies a
    ensures multiset(a[..]) == multiset(old(a[..]))
    ensures AdjacentSorted(sortBy, a[..])
  {
    var i := 0;
    while i < a.Length
      invariant 0 <= i <= a.Length
      invariant multiset(a[..]) == multiset(old(a[..]))
      invariant forall k :: 0 < k < i ==> !Less(sortBy, a[k], a[k - 1])
    {
      var j := i;
      while j > 0 && Less(sortBy, a[j], a[j - 1])
        invariant 0 <= j <= i
        invariant multiset(a[..]) == multiset(old(a[..]))
        invariant forall k :: 0 < k <= i && k != j ==> !Less(sortBy, a[k], a[k - 1])
        invariant 0 < j < i ==> !Less(sortBy, a[j + 1], a[j - 1])
      {
        LessAsymmetric(sortBy, a[j], a[j - 1]);
        Swap(a, j - 1, j);
        j := j - 1;
      }
      i := i + 1;
    }
  }

  /**
   * sortEvents: "start" puts untimed events first and timed ones in
   * non-decreasing start order; "updated" puts the most recently updated
   * first; any other key leaves the slice as it was. A nil Start is read
   * only when the "start" key compares two or more events.
   */
  method SortEvents(a: array<Event>, sortBy: string)
    requires sortBy == StartKey && a.Length > 1 ==> forall k :: 0 <= k < a.Length ==> a[k].start.Some?
    modifies a
    ensures multiset(a[..]) == multiset(old(a[..]))
    ensures sortBy == StartKey ==> StartOrdered(a[..])
    ensures sortBy == UpdatedKey ==> UpdatedOrdered(a[..])
    ensures sortBy != StartKey && sortBy != UpdatedKey ==> a[..] == old(a[..])
  {
    if sortBy == StartKey || sortBy == UpdatedKey {
      SortInPlace(a, sortBy);
      AdjacentToSorted(sortBy, a[..]);
      if sortBy == StartKey {
        SortedStartOrdered(a[..]);
      } else {
        SortedUpdatedOrdered(a[..]);
      }
    }
  }

  /**
   * Under "start" an all-day event and a timed one can only end up with the
   * all-day event first: the comparator reports untimed < timed.
   */
  lemma AllDayBeforeTimed(allDay: Event, timed: Event)
    requires !Timed(allDay) && Timed(timed)
    ensures StartOrdered([allDay, timed])
    ensures !StartOrdered([timed, allDay])
  {
    var s := [timed, allDay];
    assert 0 < 1 < |s| && Timed(s[0]) && !Timed(s[1]);
  }
}
