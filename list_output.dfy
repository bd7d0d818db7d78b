/**
 * Output of the `list` command (cmd/list.go): dispatch on the output
 * format, the rows of the text table, and the rendering of a start or end
 * time in a table cell.
 */
module ListOutput {
  import opened Results
  import opened Events
  import opened TimeText

  const JsonFormat := "json"
  const TableFormat := "table"
  const AllDay := "(all-day)"
  const Header: seq<string> := ["START", "END", "TITLE"]

  /** What an output call writes: the serialiser's text, or table rows of cells. */
  datatype Output = JsonText(text: string) | TableRows(rows: seq<seq<string>>)

  /**
   * formatEventTime: "" for nil; a non-empty DateTime wins over Date and is
   * shown as its own wall-clock HH:MM, or verbatim when it does not parse;
   * otherwise a non-empty Date shows "(all-day)", and anything else "".
   */
  function FormatEventTime(t: Option<EventDateTime>): (r: string)
    ensures t.None? ==> r == ""
    ensures t.Some? && t.value.dateTime == "" && t.value.date == "" ==> r == ""
    ensures r == "" || r == AllDay || (|r| == 5 && r[2] == ':') || (t.Some? && r == t.value.dateTime)
  {
    match t
    case None => ""
    case Some(edt) =>
      if edt.dateTime != "" then
        match ParseRfc3339(edt.dateTime)
        case None => edt.dateTime
        case Some(ts) => WallClock(ts)
      else if edt.date != "" then AllDay
      else ""
  }

  /** One table row, a cell under each header column: formatted start, formatted end, title. */
  function Row(e: Event): (r: seq<string>)
    ensures |r| == |Header|
    ensures r[0] == FormatEventTime(e.start) && r[1] == FormatEventTime(e.end) && r[2] == e.summary
  {
    [FormatEventTime(e.start), FormatEventTime(e.end), e.summary]
  }

  /** outputTable: the header row, then one row per event in input order. */
  method OutputTable(events: seq<Event>) returns (rows: seq<seq<string>>)
    ensures |rows| == |events| + 1 && rows[0] == Header
    ensures forall i :: 0 <= i < |events| ==> rows[i + 1] == Row(events[i])
  {
    rows := [Header];
    var i := 0;
    while i < |events|
      invariant 0 <= i <= |events|
      invariant |rows| == i + 1 && rows[0] == Header
      invariant forall k :: 0 <= k < i ==> rows[k + 1] == Row(events[k])
    {
      var e := events[i];
      rows := rows + [[FormatEventTime(e.start), FormatEventTime(e.end), e.summary]];
      i := i + 1;
    }
  }

  /**
   * outputEvents: "json" hands the events to the serialiser (whose failure
   * is returned and writes nothing), "table" writes the table rows, and any
   * other format fails with "unknown output format: <format>".
   */
  method OutputEvents(events: seq<Event>, format: string, marshal: seq<Event> -> Result<string, string>)
    returns (r: Result<Output, string>)
    ensures format == JsonFormat ==>
      r == (match marshal(events) case Ok(b) => Ok(JsonText(b)) case Err(e) => Err(e))
    ensures format == TableFormat ==>
      r.Ok? && r.value.TableRows? && |r.value.rows| == |events| + 1 && r.value.rows[0] == Header
      && forall i :: 0 <= i < |events| ==> r.value.rows[i + 1] == Row(events[i])
    ensures format != JsonFormat && format != TableFormat ==>
      r == Err("unknown output format: " + format)
  {
    if format == JsonFormat {
      match marshal(events)
      case Ok(b) => r := Ok(JsonText(b));
      case Err(e) => r := Err(e);
    } else if format == TableFormat {
      var rows := OutputTable(events);
      r := Ok(TableRows(rows));
    } else {
      r := Err("unknown output format: " + format);
    }
  }

  /** A timed value shows its own hour and minute, whatever its Date says and however many hour digits it has. */
  lemma FormatTimed(date: string, ts: Timestamp, wide: bool)
    requires ValidTimestamp(ts) && (!wide ==> ts.hour < 10)
    ensures FormatEventTime(Some(EventDateTime(date, TimestampText(ts, wide)))) == Pad2(ts.hour) + ":" + Pad2(ts.minute)
  {
    ParseTimestampText(ts, wide);
  }

  /**
   * A DateTime that parses is shown as the hour and minute written in it,
   * a one-digit hour padded with a leading zero.
   */
  lemma FormatWrittenClock(date: string, dateTime: string)
    requires ParseRfc3339(dateTime).Some?
    ensures |dateTime| >= 16
    ensures IsDigit(dateTime[12]) ==> FormatEventTime(Some(EventDateTime(date, dateTime))) == dateTime[11..16]
    ensures !IsDigit(dateTime[12]) ==> FormatEventTime(Some(EventDateTime(date, dateTime))) == "0" + dateTime[11..15]
  {
    var ts := ParseRfc3339(dateTime).value;
    var shown := FormatEventTime(Some(EventDateTime(date, dateTime)));
    assert shown == Pad2(ts.hour) + ":" + Pad2(ts.minute);
    WrittenClock(dateTime, ts);
  }

  /** A DateTime that does not parse is shown as it is. */
  lemma FormatUnparsable(date: string, dateTime: string)
    requires dateTime != "" && ParseRfc3339(dateTime).None?
    ensures FormatEventTime(Some(EventDateTime(date, dateTime))) == dateTime
  {
  }

  /** Without a DateTime, a Date marks an all-day value. */
  lemma FormatAllDay(date: string)
    requires date != ""
    ensures FormatEventTime(Some(EventDateTime(date, ""))) == AllDay
  {
  }
}
