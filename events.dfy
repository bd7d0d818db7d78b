/**
 * The parts of the calendar API's event representation that the list
 * pipeline reads. Events are values: nothing in the core mutates one
 * after it has been fetched.
 */
module Events {
  import opened Results

  /** One attendee record: whether it is the authenticated user, and the reply. */
  datatype Attendee = Attendee(self: bool, responseStatus: string)

  /** An event's start or end: a date-only marker or an RFC 3339 timestamp (either may be ""). */
  datatype EventDateTime = EventDateTime(date: string, dateTime: string)

  /** A calendar event; `start` and `end` are pointers in the API and may be nil. */
  datatype Event = Event(
    summary: string,
    start: Option<EventDateTime>,
    end: Option<EventDateTime>,
    attendees: seq<Attendee>,
    updated: string)
}
