/**
 * Query construction and accumulation of the `list` command (cmd/list.go):
 * the day window and the since/to range window, one list call per
 * configured calendar ID, and the concatenation of their results.
 *
 * The calendar API's list call is the parameter `list`, a function from
 * the query sent to the items or the error it returns; the local time zone
 * is the parameter `zone`, giving the UTC offset Go would write for a
 * wall-clock time on a date.
 */
module ListFetch {
  import opened Results
  import opened Events
  import opened TimeText

  /** The parameters set on one Events.List call. */
  datatype Query = Query(
    calendarId: string,
    showDeleted: bool,
    singleEvents: bool,
    orderBy: string,
    timeMin: string,
    timeMax: Option<string>,
    maxResults: Option<int>)

  /** The RFC 3339 bounds sent as TimeMin and, when present, TimeMax. */
  datatype Window = Window(timeMin: string, timeMax: Option<string>)

  /** A date argument that does not parse, or the first list call that failed. */
  datatype FetchError = InvalidDate(message: string) | CallFailed(error: string)

  type ListCall = Query -> Result<seq<Event>, string>

  /**
   * An offset as time.RFC3339 formatting writes it: `Z` for UTC, otherwise a
   * sign and a non-zero offset below 24 hours.
   */
  type LocalOffset = z: Zone | z.Utc? ||
    ((z.sign == '+' || z.sign == '-') && z.hours < 24 && z.minutes < 60 && (z.hours > 0 || z.minutes > 0))
    witness Utc

  /** The offset the local zone has at a wall-clock time (hour, minute, second) on a date. */
  type LocalZone = (Date, nat, nat, nat) -> LocalOffset

  const DayDateMessage := "invalid date format (expected YYYY-MM-DD)"
  const SinceDateMessage := "invalid since date format (expected YYYY-MM-DD)"
  const ToDateMessage := "invalid to date format (expected YYYY-MM-DD)"

  /**
   * Local midnight of `d`, formatted as RFC 3339; the text reads back as
   * that date at 00:00:00 in the local offset.
   */
  function StartOfDay(d: Date, zone: LocalZone): (r: string)
    requires ValidDate(d)
    ensures ParseRfc3339(r) == Some(Timestamp(d, 0, 0, 0, "", zone(d, 0, 0, 0)))
    ensures r == FormatDate(d) + "T00:00:00" + ZoneText(zone(d, 0, 0, 0))
  {
    var ts := Timestamp(d, 0, 0, 0, "", zone(d, 0, 0, 0));
    ParseRfc3339Text(ts);
    BoundText(d, 0, 0, 0, zone(d, 0, 0, 0), "T00:00:00");
    Rfc3339Text(ts)
  }

  /**
   * Local 23:59:59.000000059 of `d`, formatted as RFC 3339, which writes no
   * fraction; the text reads back as that date at 23:59:59 in the local offset.
   */
  function EndOfDay(d: Date, zone: LocalZone): (r: string)
    requires ValidDate(d)
    ensures ParseRfc3339(r) == Some(Timestamp(d, 23, 59, 59, "", zone(d, 23, 59, 59)))
    ensures r == FormatDate(d) + "T23:59:59" + ZoneText(zone(d, 23, 59, 59))
  {
    var ts := Timestamp(d, 23, 59, 59, "", zone(d, 23, 59, 59));
    ParseRfc3339Text(ts);
    BoundText(d, 23, 59, 59, zone(d, 23, 59, 59), "T23:59:59");
    Rfc3339Text(ts)
  }

  /** The window of fetchDayEvents: the whole of one local day. */
  function DayWindow(date: string, zone: LocalZone): (r: Result<Window, FetchError>)
    ensures r.Err? <==> ParseDate(date).None?
    ensures r.Err? ==> r.error == InvalidDate(DayDateMessage)
    ensures r.Ok? ==> r.value == Window(StartOfDay(ParseDate(date).value, zone), Some(EndOfDay(ParseDate(date).value, zone)))
  {
    match ParseDate(date)
    case None => Err(InvalidDate(DayDateMessage))
    case Some(d) => Ok(Window(StartOfDay(d, zone), Some(EndOfDay(d, zone))))
  }

  /**
   * The window of fetchRangeEvents: from local midnight of `since`, to
   * local 23:59:59 of `to` when `to` is given, otherwise unbounded above.
   * `since` is checked before `to`.
   */
  function RangeWindow(since: string, to: string, zone: LocalZone): (r: Result<Window, FetchError>)
    ensures ParseDate(since).None? ==> r == Err(InvalidDate(SinceDateMessage))
    ensures ParseDate(since).Some? && to != "" && ParseDate(to).None? ==> r == Err(InvalidDate(ToDateMessage))
    ensures ParseDate(since).Some? && (to == "" || ParseDate(to).Some?) ==> r.Ok?
    ensures r.Ok? ==> r.value.timeMin == StartOfDay(ParseDate(since).value, zone)
    ensures r.Ok? ==> (r.value.timeMax.Some? <==> to != "")
    ensures r.Ok? && to != "" ==> r.value.timeMax == Some(EndOfDay(ParseDate(to).value, zone))
  {
    match ParseDate(since)
    case None => Err(InvalidDate(SinceDateMessage))
    case Some(s) =>
      if to == "" then Ok(Window(StartOfDay(s, zone), None))
      else
        match ParseDate(to)
        case None => Err(InvalidDate(ToDateMessage))
        case Some(t) => Ok(Window(StartOfDay(s, zone), Some(EndOfDay(t, zone))))
  }

  /**
   * The list call for one calendar: deleted events hidden, recurring ones
   * expanded into single events, ordered by start time, bounded by the window.
   */
  function QueryFor(calendarId: string, w: Window, maxResults: Option<int>): (q: Query)
    ensures q.calendarId == calendarId && !q.showDeleted && q.singleEvents && q.orderBy == "startTime"
    ensures q.timeMin == w.timeMin && q.timeMax == w.timeMax && q.maxResults == maxResults
  {
    Query(calendarId, false, true, "startTime", w.timeMin, w.timeMax, maxResults)
  }

  /** Reference definition of the accumulation: results in calendar-ID order, or the first error. */
  function Collected(ids: seq<string>, w: Window, maxResults: Option<int>, list: ListCall): Result<seq<Event>, FetchError>
  {
    if |ids| == 0 then Ok([])
    else
      match list(QueryFor(ids[0], w, maxResults))
      case Err(e) => Err(CallFailed(e))
      case Ok(items) =>
        match Collected(ids[1..], w, maxResults, list)
        case Err(e) => Err(e)
        case Ok(rest) => Ok(items + rest)
  }

  /** Sequencing of two partial results: the first error wins, otherwise concatenate. */
  function Then(r1: Result<seq<Event>, FetchError>, r2: Result<seq<Event>, FetchError>): Result<seq<Event>, FetchError> {
    match r1
    case Err(e) => Err(e)
    case Ok(a) =>
      match r2
      case Err(e) => Err(e)
      case Ok(b) => Ok(a + b)
  }

  /** The loop over CalendarIDList shared by both fetch functions. */
  method CollectEvents(ids: seq<string>, w: Window, maxResults: Option<int>, list: ListCall)
    returns (r: Result<seq<Event>, FetchError>)
    ensures r == Collected(ids, w, maxResults, list)
  {
    var events: seq<Event> := [];
    var i := 0;
    ThenEmpty(Collected(ids, w, maxResults, list));
    while i < |ids|
      invariant 0 <= i <= |ids|
      invariant Collected(ids, w, maxResults, list) == Then(Ok(events), Collected(ids[i..], w, maxResults, list))
    {
      assert ids[i..][1..] == ids[i + 1..];
      var result := list(QueryFor(ids[i], w, maxResults));
      match result
      case Err(e) =>
        return Err(CallFailed(e));
      case Ok(items) =>
        ThenAssociative(events, items, Collected(ids[i + 1..], w, maxResults, list));
        events := events + items;
      i := i + 1;
    }
    assert ids[i..] == [];
    assert events + [] == events;
    r := Ok(events);
  }

  lemma ThenEmpty(r: Result<seq<Event>, FetchError>)
    ensures Then(Ok([]), r) == r
  {
    if r.Ok? {
      assert [] + r.value == r.value;
    }
  }

  lemma ThenAssociative(a: seq<Event>, b: seq<Event>, r: Result<seq<Event>, FetchError>)
    ensures Then(Ok(a), Then(Ok(b), r)) == Then(Ok(a + b), r)
  {
    if r.Ok? {
      assert a + (b + r.value) == (a + b) + r.value;
    }
  }

  /** fetchDayEvents: an unparsable date fails before any list call. */
  method FetchDayEvents(ids: seq<string>, listDate: string, zone: LocalZone, list: ListCall)
    returns (r: Result<seq<Event>, FetchError>)
    ensures ParseDate(listDate).None? ==> r == Err(InvalidDate(DayDateMessage))
    ensures ParseDate(listDate).Some? ==> r == Collected(ids, DayWindow(listDate, zone).value, None, list)
  {
    var window := DayWindow(listDate, zone);
    if window.Err? {
      return Err(window.error);
    }
    r := CollectEvents(ids, window.value, None, list);
  }

  /** fetchRangeEvents: MaxResults is sent only when positive. */
  method FetchRangeEvents(ids: seq<string>, since: string, to: string, listMaxResults: int, zone: LocalZone, list: ListCall)
    returns (r: Result<seq<Event>, FetchError>)
    ensures RangeWindow(since, to, zone).Err? ==> r == Err(RangeWindow(since, to, zone).error)
    ensures RangeWindow(since, to, zone).Ok? ==>
      r == Collected(ids, RangeWindow(since, to, zone).value, if listMaxResults > 0 then Some(listMaxResults) else None, list)
  {
    var window := RangeWindow(since, to, zone);
    if window.Err? {
      return Err(window.error);
    }
    var maxResults := if listMaxResults > 0 then Some(listMaxResults) else None;
    r := CollectEvents(ids, window.value, maxResults, list);
  }

  // ----- properties -----

  /** Fetching over two lists of IDs is fetching over the first, then the second. */
  lemma {:induction false} CollectedAppend(xs: seq<string>, ys: seq<string>, w: Window, maxResults: Option<int>, list: ListCall)
    ensures Collected(xs + ys, w, maxResults, list) == Then(Collected(xs, w, maxResults, list), Collected(ys, w, maxResults, list))
    decreases |xs|
  {
    if |xs| == 0 {
      assert xs + ys == ys;
      var r := Collected(ys, w, maxResults, list);
      if r.Ok? {
        assert [] + r.value == r.value;
      }
    } else {
      assert (xs + ys)[0] == xs[0] && (xs + ys)[1..] == xs[1..] + ys;
      CollectedAppend(xs[1..], ys, w, maxResults, list);
      var first := list(QueryFor(xs[0], w, maxResults));
      if first.Ok? {
        ThenAssociative(first.value, [], Collected(ys, w, maxResults, list));
        var mid := Collected(xs[1..], w, maxResults, list);
        var last := Collected(ys, w, maxResults, list);
        if mid.Ok? && last.Ok? {
          assert first.value + (mid.value + last.value) == (first.value + mid.value) + last.value;
        }
      }
    }
  }

  /** One calendar's result is exactly what its list call returned. */
  lemma CollectedSingle(cid: string, w: Window, maxResults: Option<int>, list: ListCall)
    ensures Collected([cid], w, maxResults, list) ==
      match list(QueryFor(cid, w, maxResults))
      case Ok(items) => Ok(items)
      case Err(e) => Err(CallFailed(e))
  {
    assert [cid][1..] == [];
    var r := list(QueryFor(cid, w, maxResults));
    if r.Ok? {
      assert r.value + [] == r.value;
    }
  }

  /** The first failing call decides the error, whatever the later calls return. */
  lemma {:induction false} CollectedFirstError(ids: seq<string>, k: nat, w: Window, maxResults: Option<int>, list: ListCall)
    requires k < |ids|
    requires forall j :: 0 <= j < k ==> list(QueryFor(ids[j], w, maxResults)).Ok?
    requires list(QueryFor(ids[k], w, maxResults)).Err?
    ensures Collected(ids, w, maxResults, list) == Err(CallFailed(list(QueryFor(ids[k], w, maxResults)).error))
    decreases k
  {
    if k > 0 {
      assert forall j :: 0 <= j < k - 1 ==> ids[1..][j] == ids[j + 1];
      CollectedFirstError(ids[1..], k - 1, w, maxResults, list);
    }
  }

  /** The fetch succeeds exactly when every list call succeeds. */
  lemma {:induction false} CollectedOk(ids: seq<string>, w: Window, maxResults: Option<int>, list: ListCall)
    ensures Collected(ids, w, maxResults, list).Ok? <==>
      forall j :: 0 <= j < |ids| ==> list(QueryFor(ids[j], w, maxResults)).Ok?
    decreases |ids|
  {
    if |ids| > 0 {
      CollectedOk(ids[1..], w, maxResults, list);
      assert forall j :: 1 <= j < |ids| ==> ids[j] == ids[1..][j - 1];
    }
  }

  /** Each calendar's items appear as one block, after those of the calendars before it. */
  lemma CollectedBlock(ids: seq<string>, k: nat, w: Window, maxResults: Option<int>, list: ListCall)
    requires k < |ids|
    requires Collected(ids, w, maxResults, list).Ok?
    ensures Collected(ids[..k], w, maxResults, list).Ok? && list(QueryFor(ids[k], w, maxResults)).Ok?
    ensures Collected(ids[k + 1..], w, maxResults, list).Ok?
    ensures Collected(ids, w, maxResults, list).value ==
      Collected(ids[..k], w, maxResults, list).value
      + list(QueryFor(ids[k], w, maxResults)).value
      + Collected(ids[k + 1..], w, maxResults, list).value
  {
    assert ids == ids[..k] + ([ids[k]] + ids[k + 1..]);
    CollectedAppend(ids[..k], [ids[k]] + ids[k + 1..], w, maxResults, list);
    CollectedAppend([ids[k]], ids[k + 1..], w, maxResults, list);
    CollectedSingle(ids[k], w, maxResults, list);
  }

  /** The day query: that date from 00:00:00 to 23:59:59 in the local offsets, at most every event. */
  lemma DayQuery(cid: string, date: string, zone: LocalZone)
    requires ParseDate(date).Some?
    ensures var d := ParseDate(date).value;
      QueryFor(cid, DayWindow(date, zone).value, None) ==
      Query(cid, false, true, "startTime",
            date + "T00:00:00" + ZoneText(zone(d, 0, 0, 0)),
            Some(date + "T23:59:59" + ZoneText(zone(d, 23, 59, 59))),
            None)
  {
  }

  /** The range query: TimeMax only with `to`, MaxResults only when positive. */
  lemma RangeQuery(cid: string, since: string, to: string, listMaxResults: int, zone: LocalZone)
    requires ParseDate(since).Some? && (to == "" || ParseDate(to).Some?)
    ensures var q := QueryFor(cid, RangeWindow(since, to, zone).value, if listMaxResults > 0 then Some(listMaxResults) else None);
      q.calendarId == cid && !q.showDeleted && q.singleEvents && q.orderBy == "startTime"
      && q.timeMin == since + "T00:00:00" + ZoneText(zone(ParseDate(since).value, 0, 0, 0))
      && (q.timeMax.Some? <==> to != "")
      && (q.timeMax.Some? ==> q.timeMax.value == to + "T23:59:59" + ZoneText(zone(ParseDate(to).value, 23, 59, 59)))
      && (q.maxResults.Some? <==> listMaxResults > 0)
      && (q.maxResults.Some? ==> q.maxResults.value == listMaxResults)
  {
  }

  /** A whole-second time of day with no fraction, written after the date as `text`. */
  lemma BoundText(d: Date, hour: nat, minute: nat, second: nat, z: LocalOffset, text: string)
    requires ValidDate(d) && hour < 24 && minute < 60 && second < 60
    requires text == "T" + Pad2(hour) + ":" + Pad2(minute) + ":" + Pad2(second)
    ensures Rfc3339Text(Timestamp(d, hour, minute, second, "", z)) == FormatDate(d) + text + ZoneText(z)
  {
    var a := AfterHourText(minute, second, "", z);
    assert a == ":" + Pad2(minute) + ":" + Pad2(second) + ZoneText(z);
  }
}
