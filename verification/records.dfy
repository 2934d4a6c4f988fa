/**
 * The records the calendar synchronisation works with: what the Google Calendar
 * API returns for calendars and events, and the normalised records the
 * application keeps in its context and writes to its snapshot file.
 */
module Records {
  import opened Wrappers
  import opened RRule

  /** The signed-in user; only its presence matters to the synchronisation. */
  datatype User = User(
    email: string,
    name: string,
    accessToken: string,
    refreshToken: string,
    tokenType: string,
    expiresIn: int,
    scope: string)

  /** One entry of the calendar list. */
  datatype CalendarRef = CalendarRef(id: string, summary: string)

  /** A `start` or `end` object of the API: a timed event has `dateTime`, an all-day event `date`. */
  datatype EventTime = EventTime(dateTime: Option<string>, date: Option<string>)

  /** `extendedProperties` of the API and the `x` field of a normalised event. */
  datatype ExtendedProperties = ExtendedProperties(
    private: Option<map<string, string>>,
    shared: Option<map<string, string>>)

  /** No extended property at all: `{}`. */
  const NoExtendedProperties: ExtendedProperties := ExtendedProperties(None, None)

  /** One item of an events listing, every optional member optional. */
  datatype RawEvent = RawEvent(
    id: string,
    summary: Option<string>,
    description: Option<string>,
    location: Option<string>,
    start: Option<EventTime>,
    end: Option<EventTime>,
    htmlLink: Option<string>,
    recurrence: Option<seq<string>>,
    recurringEventId: Option<string>,
    extendedProperties: Option<ExtendedProperties>)

  /** The normalised event of the synchronisation that keeps a context (`Event` of the context store). */
  datatype Event = Event(
    id: string,
    title: string,
    description: string,
    location: string,
    start: string,
    end: string,
    calendar: string,
    calendarId: string,
    htmlLink: Option<string>,
    recurrence: seq<string>,
    recurrenceRules: seq<RecurrenceRule>,
    recurringEventId: Option<string>,
    x: ExtendedProperties)

  /** The normalised event of the older synchronisation: `start`/`end` may be undefined, and there is no `x`. */
  datatype LegacyEvent = LegacyEvent(
    id: string,
    title: string,
    description: string,
    location: string,
    start: Option<string>,
    end: Option<string>,
    calendar: string,
    calendarId: string,
    htmlLink: Option<string>,
    recurrence: seq<string>,
    recurrenceRules: seq<RecurrenceRule>,
    recurringEventId: Option<string>)

  /** The errors the TypeScript operations throw. */
  datatype Failure =
    | UserNotInitialized              // `context.getUser()` with no user
    | CalendarsNotFetched             // the calendar list request was not ok
    | SnapshotNotWritten              // writing `.mem/events.json` failed
    | RemovalFailed(eventId: string)  // a DELETE was not ok or threw
}
