# gcal event pipeline, modelled in Dafny

gcal is a command-line client for Google Calendar. This project models the
part of it that has its own logic:

- the `list` command's pipeline in `cmd/list.go`:
  - the day window and the since/to range window;
  - one list call per configured calendar ID, with results concatenated in
    calendar-ID order and the first error ending the fetch;
  - the declined-event filter;
  - the in-place sort by start time or by last update;
  - output as JSON or as table rows, and the HH:MM rendering of a start or
    end time;
- the configuration rules of `internal/gcal/config.go`: the OAuth default
  applied after decoding, and `Validate`;
- the service construction of `internal/gcal/service.go`: the authenticator
  chosen by the authentication type, and the service built from it.

Files and modules:

| file | module | models |
|---|---|---|
| `results.dfy` | `Results` | Go's `(value, error)` pairs and nil pointers |
| `events.dfy` | `Events` | the fields of the calendar API's event that the pipeline reads |
| `string_order.dfy` | `StringOrder` | Go's `<` on strings |
| `time_text.dfy` | `TimeText` | the `2006-01-02` date layout and RFC 3339 parsing, standing in for Go's `time` package |
| `list_filter.dfy` | `ListFilter` | `isDeclined`, `filterDeclinedEvents` |
| `list_sort.dfy` | `ListSort` | `sortEvents` |
| `list_output.dfy` | `ListOutput` | `outputEvents`, `outputTable`, `formatEventTime` |
| `list_fetch.dfy` | `ListFetch` | `fetchDayEvents`, `fetchRangeEvents` |
| `gcal_config.dfy` | `GcalConfig` | `Config`, `LoadConfig`, `Config.Validate` |
| `gcal_service.dfy` | `GcalService` | `newAuthenticator`, `NewService` |

Entities and operations, and how each is modelled:

- **Events are values.** Nothing in the core changes an event once it has
  been fetched. The Go slice of `*calendar.Event` therefore becomes an
  array of `Event` values in the sort, and a `seq<Event>` elsewhere.
- **The sort works in place.** `sortEvents` is a method with
  `modifies a` on an `array<Event>`. Its contract states three things:
  - the result is a permutation of the input;
  - the result is ordered under the chosen key;
  - any other key leaves the array unchanged.
- **`Config` is a class.** `LoadConfig` changes its `AuthType` field after
  decoding, so the fields live in a class. `Validate` is a function that
  reads the object and changes nothing.
- **The calendar API is a parameter.** The list call is a function from the
  query record to `Result<seq<Event>, string>`. The calendar client factory
  used by `NewService` is a function too, and so is the JSON serialiser.
  The local time zone is a function that gives the UTC offset for a
  wall-clock time on a date: `Z` or a non-zero offset below 24 hours.

Three behaviours of the code that are easy to misread:

- **Untimed events sort first.** Under the "start" key, `less(x, y)` holds
  when `y` has a timed start and `x` does not (cmd/list.go:159-161), so
  all-day events come before timed ones. `ListSort.AllDayBeforeTimed`
  proves that only the all-day-first order is sorted.
- **HH:MM is read in the timestamp's own offset.** `time.Parse` keeps the
  offset written in the timestamp (cmd/list.go:209), and `Format("15:04")`
  writes the hour and minute in that offset (cmd/list.go:213). It does not
  convert to the local zone, so the shown hour and minute are the ones
  written in the text.
- **Sorting twice need not give the same order.** `sort.Slice`
  (cmd/list.go:155, 165) is not stable. Only the order of the keys is
  promised, not the order of events whose keys are equal.

## Model

| member | source | states |
|---|---|---|
| `StringOrder.LessIrreflexive` | cmd/list.go:157 | no string is below itself in Go's string order |
| `StringOrder.LessTransitive` | cmd/list.go:157 | Go's string order is transitive |
| `StringOrder.LessTotal` | cmd/list.go:166 | of two different strings, one is below the other |
| `StringOrder.LessAsymmetric` | cmd/list.go:166 | two strings are never each below the other |
| `TimeText.ParseDate` | cmd/list.go:78-80 | an accepted `YYYY-MM-DD` date is valid and is written back as the same text |
| `TimeText.ParseFormatDate` | cmd/list.go:78-84 | every valid date's text parses back to that date |
| `TimeText.ParseDateExactly` | cmd/list.go:78-80 | the date layout accepts exactly the texts of valid dates (4/2/2 digits, month 1-12, day within the month) |
| `TimeText.ParseZone` | cmd/list.go:209 | an accepted offset suffix (`Z`, or sign hh:mm up to 24:60) is valid and reads back as the same text |
| `TimeText.ParseClockIsText` | cmd/list.go:209 | the text after `T` is accepted only as the hour (one or two digits), minute, second, fraction and offset of the result, written out again |
| `TimeText.ParseRfc3339` | cmd/list.go:209-212 | an accepted RFC 3339 timestamp has a valid date, hour below 24, minute and second below 60, and a valid fraction and offset, and the input is that timestamp's text with a two-digit hour, or with a one-digit hour below 10 |
| `TimeText.ParseTimestampText` | cmd/list.go:209-212 | every valid timestamp's text, with either hour width, parses back to that timestamp, offset included |
| `TimeText.ParseRfc3339Text` | cmd/list.go:209-213 | every valid timestamp's canonical text parses back to that timestamp |
| `TimeText.ParseRfc3339Exactly` | cmd/list.go:209-212 | the parser accepts a text exactly when it is the text of some valid timestamp, with a one- or two-digit hour |
| `TimeText.WallClock` | cmd/list.go:213 | `Format("15:04")` is five characters, two digits, ':', two digits, that read back as the timestamp's hour and minute |
| `TimeText.WrittenClock` | cmd/list.go:209-213 | in an accepted text the hour and minute are written at positions 11-15, one hour digit fewer when it is a single digit |
| `ListFilter.HasSelfDeclined` | cmd/list.go:143-150 | true exactly when some attendee is the user and has response status "declined" |
| `ListFilter.IsDeclined` | cmd/list.go:143-150 | an event is declined exactly when one of its attendee records is the user's own with response status "declined" |
| `ListFilter.OthersDeclineDoesNotCount` | cmd/list.go:145 | adding an attendee that is not the user, whatever its response, does not change whether the event is declined |
| `ListFilter.FilterDeclinedEvents` | cmd/list.go:133-141 | the loop's result is the in-order filter of the events that are not declined |
| `ListFilter.NotDeclinedMembership` | cmd/list.go:133-141 | an event is in the result exactly when it is in the input and is not declined |
| `ListFilter.KeptWithoutSelfAttendee` | cmd/list.go:143-150 | an event with no self attendee is always kept |
| `ListFilter.NotDeclinedLength` | cmd/list.go:134-140 | the result is never longer than the input |
| `ListFilter.NotDeclinedAppend` | cmd/list.go:135-139 | filtering a concatenation is concatenating the filtered parts, so relative order is kept |
| `ListFilter.NotDeclinedKeepsAll` | cmd/list.go:135-139 | an input with nothing declined comes back unchanged |
| `ListFilter.NotDeclinedIdempotent` | cmd/list.go:133-141 | filtering twice is filtering once |
| `ListFilter.DeclinedVersusAccepted` | cmd/list.go:143-150 | the user's own "declined" drops an event; the same event with "accepted" is kept |
| `ListSort.Less` | cmd/list.go:155-167 | no key other than "start" and "updated" orders anything; no event is below itself; under "start" an untimed event is below every timed one, nothing is below an untimed event, and timed starts compare as strings; under "updated" the later Updated string is below |
| `ListSort.LessAsymmetric` | cmd/list.go:155-167 | each comparator is asymmetric |
| `ListSort.NotAfterTransitive` | cmd/list.go:155-167 | "not after" is transitive under each comparator, so each is a strict weak order |
| `ListSort.AdjacentToSorted` | cmd/list.go:155-167 | if no element is below its left neighbour, none is below any element to its left |
| `ListSort.SortedStartOrdered` | cmd/list.go:155-163 | sorted under "start" means untimed events come first and timed starts never decrease |
| `ListSort.SortedUpdatedOrdered` | cmd/list.go:164-167 | sorted under "updated" means Updated never increases |
| `ListSort.SortInPlace` | cmd/list.go:155 | the in-place sort returns a permutation in which no element is below its left neighbour |
| `ListSort.SortEvents` | cmd/list.go:152-168 | "start": a permutation with untimed events first and timed starts non-decreasing; "updated": a permutation with Updated non-increasing; any other key: unchanged |
| `ListSort.AllDayBeforeTimed` | cmd/list.go:159-161 | of an all-day and a timed event, only the order with the all-day event first is sorted under "start" |
| `ListOutput.FormatEventTime` | cmd/list.go:204-219 | nil gives "", and so do an empty DateTime and an empty Date; otherwise the result is "", "(all-day)", an HH:MM text or the raw DateTime |
| `ListOutput.FormatTimed` | cmd/list.go:208-213 | a well-formed DateTime, with a one- or two-digit hour, shows its own hour and minute as two digits each, whatever Date holds |
| `ListOutput.FormatWrittenClock` | cmd/list.go:208-213 | a DateTime that parses is shown as the hour and minute written in it, a one-digit hour padded with a leading zero |
| `ListOutput.FormatUnparsable` | cmd/list.go:209-211 | a non-empty DateTime that does not parse is shown verbatim |
| `ListOutput.FormatAllDay` | cmd/list.go:215-217 | an empty DateTime with a non-empty Date shows "(all-day)" |
| `ListOutput.Row` | cmd/list.go:196-198 | a row has one cell per header column: the formatted start, the formatted end, the summary |
| `ListOutput.OutputTable` | cmd/list.go:191-202 | the header START, END, TITLE, then one row per event in input order: start, end, summary |
| `ListOutput.OutputEvents` | cmd/list.go:171-189 | "json" returns the serialiser's text or its error; "table" returns the table rows; any other format fails with "unknown output format: <format>" and writes nothing |
| `ListFetch.StartOfDay` | cmd/list.go:83 | local midnight of the date is written `YYYY-MM-DDT00:00:00` and the offset, and parses back as that date at 00:00:00 in that offset |
| `ListFetch.EndOfDay` | cmd/list.go:84 | 23:59:59 and 59 nanoseconds on the date is written `YYYY-MM-DDT23:59:59` and the offset, with no fraction, and parses back as that date at 23:59:59 in that offset |
| `ListFetch.DayWindow` | cmd/list.go:78-84 | fails with the fixed message exactly when the date does not parse; otherwise runs from the date's start of day to its end of day |
| `ListFetch.RangeWindow` | cmd/list.go:99-112 | a bad since date fails first, then a bad to date, and otherwise it succeeds; TimeMin is the since date's start of day; TimeMax is present exactly when `to` is non-empty, and is then the to date's end of day |
| `ListFetch.QueryFor` | cmd/list.go:88-89 | each list call hides deleted events, expands recurring ones, orders by start time, and carries the window's bounds and the given MaxResults |
| `ListFetch.CollectEvents` | cmd/list.go:114-130 | the loop's result is the in-order concatenation of the list results, or the first error |
| `ListFetch.FetchDayEvents` | cmd/list.go:77-96 | a bad date fails before any list call; otherwise the day window's queries are collected |
| `ListFetch.FetchRangeEvents` | cmd/list.go:98-131 | a bad date fails before any list call; otherwise the range window's queries are collected, with MaxResults only when positive |
| `ListFetch.CollectedAppend` | cmd/list.go:115-129 | fetching over two lists of IDs is fetching the first then the second; an error in the first wins |
| `ListFetch.CollectedSingle` | cmd/list.go:124-128 | one calendar's result is what its list call returned |
| `ListFetch.CollectedFirstError` | cmd/list.go:124-127 | the first failing call's error is the result, whatever later calls return |
| `ListFetch.CollectedOk` | cmd/list.go:115-129 | the fetch succeeds exactly when every list call succeeds |
| `ListFetch.CollectedBlock` | cmd/list.go:128 | each calendar's items form one block, after those of the calendars before it |
| `ListFetch.DayQuery` | cmd/list.go:83-89 | each day query hides deleted events, expands recurring ones, orders by start time, runs from the date at 00:00:00 to the date at 23:59:59, and sets no MaxResults |
| `ListFetch.RangeQuery` | cmd/list.go:103-123 | each range query has the same fixed flags and starts at the since date at 00:00:00; it sets TimeMax only with `to`, to the to date at 23:59:59, and MaxResults only when positive, to its value |
| `GcalConfig.LoadConfig` | internal/gcal/config.go:26-38 | a decode error is wrapped; otherwise the new config holds the decoded fields, with an empty AuthType changed to "oauth" and a non-empty one kept |
| `GcalConfig.Config.Validate` | internal/gcal/config.go:41-55 | fine exactly when application credentials are set, user credentials are set if the type is "oauth", and calendar IDs are present; the first failing check in order is reported |
| `GcalConfig.ServiceAccountNeedsNoUserCredentials` | internal/gcal/config.go:46-48 | a service-account config is accepted without user credentials |
| `GcalService.NewAuthenticator` | internal/gcal/service.go:30-42 | service account exactly for "service_account", OAuth otherwise (unknown values included); the credentials file is the application credentials and the OAuth token file is the user credentials |
| `GcalService.NewService` | internal/gcal/service.go:16-28 | succeeds exactly when the client factory does; its error is passed on unchanged; on success the service holds the client and the config's calendar IDs |

## Left out

- `ListSort.SortInPlace`: it is an insertion sort, while `sort.Slice` uses
  pattern-defeating quicksort. Only the contract is shared: the result is a
  permutation, ordered under the comparator. The order of events with equal
  keys is not fixed, just as `sort.Slice` does not fix it.
- `ListSort.SortEvents`: a nil `Start` is excluded by a precondition. The
  source would panic when the "start" key compares two or more events and
  one of them has no `Start`.
- `ListSort.SortEvents`: sorting twice is not promised to give the same
  order. `sort.Slice` is not stable, so the contract fixes only the order of
  the keys, not the order among events whose keys are equal.
- Go strings are compared byte by byte. The model compares characters. For
  well-formed UTF-8 the two orders agree.
- `ListFetch.DayWindow`, `ListFetch.RangeWindow`: the error carries only the
  fixed message prefix. The wrapped `time` parse error text is not modelled.
- The local time zone is opaque: a parameter gives the offset. Go's
  normalisation of local times that do not exist (a daylight-saving gap at
  midnight) is not modelled.
- The JSON encoding of events is a parameter. The field set belongs to the
  calendar library, so no round-trip claim is made for it.
- `text/tabwriter` column alignment and writer errors are not modelled. A
  table is its rows of cells, and writing it never fails.
- `ListOutput.OutputTable`: a summary, or a DateTime shown verbatim, can hold
  a tab or a newline. `tabwriter` then reads it as a cell break or a line
  break, so the written table has extra cells or lines. The model keeps such
  a text as one cell.
- The `list` command's `Run` closure (cmd/list.go:47-74) and the flag
  registration in `init` are not modelled. They are Cobra wiring with
  `log.Fatalf` exits, and `GetConfig` is not defined in this snapshot of the
  repository.
- `viper.Unmarshal` is not modelled. `LoadConfig` takes its outcome, a
  decoded record or an error message, as input.
- The `context.Context` argument of `NewService` is not modelled. It is only
  passed through to the client factory.
- `google.NewCalendarService`, token acquisition and storage
  (internal/google/auth.go, cmd/root.go) and the `auth` prompt are not
  modelled. They are file I/O, stdin and the OAuth network exchange.
  internal/google/calendar.go is not part of this model.
- cmd/day.go, cmd/today.go, cmd/updates.go and cmd/version.go are not part
  of this model, and each differs from cmd/list.go:
  - cmd/version.go only prints the version text;
  - cmd/day.go repeats the day window and the "start" comparator;
  - cmd/today.go does the same for today's date, with MaxResults 10;
  - cmd/updates.go builds its own "updated since" query: TimeMin is the
    current time, UpdatedMin is local midnight of the since date, at most
    10 results, ordered by update, and no TimeMax. It then sorts with the
    "start" comparator.
- `time.Now()` is not modelled. It supplies the default `--date`, which
  reaches the model as an ordinary argument.
- `--max-results` is an `int64` in the source. The model uses an unbounded
  `int`; only its sign is tested, and the value is passed on unchanged.
