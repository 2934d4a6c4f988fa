/**
 * The Google Calendar HTTP API and the snapshot file, as the synchronisation sees
 * them: calls that may answer, answer with a status that is not ok, or throw.
 * What each call answers is fixed in advance by oracles that are indexed by the
 * argument and by the number of requests sent before it, so a call repeated later
 * may get a different answer. Every request sent is recorded in order.
 */
module Gateway {
  import opened Wrappers
  import opened Records

  /** The requests the synchronisation and the removal send. */
  datatype Request =
    | ListCalendars
    | ListEvents(calendarId: string)
    | FetchEvent(eventId: string)
    | DeleteEvent(eventId: string)

  /** What an awaited `fetch` produced: an ok response and its decoded body, a response that is not ok, or a thrown error. */
  datatype Reply<T> = Response(body: T) | NotOk | Threw

  /**
   * The answers of the API. The `nat` argument is the number of requests sent
   * before the call. A body member that the JSON may lack (`items`, `recurrence`)
   * is an `Option`. `delete` is true when the DELETE response is ok.
   */
  datatype Oracles = Oracles(
    calendars: nat -> Reply<Option<seq<CalendarRef>>>,
    events: (string, nat) -> Reply<Option<seq<RawEvent>>>,
    master: (string, nat) -> Reply<Option<seq<string>>>,
    delete: (string, nat) -> bool)

  /** The API client: sends a request, records it, and returns the oracle's answer. */
  class CalendarApi {
    var log: seq<Request>
    const oracles: Oracles

    constructor (oracles: Oracles)
      ensures this.oracles == oracles && log == []
    {
      this.oracles := oracles;
      log := [];
    }

    /** `GET users/me/calendarList`. */
    method ListCalendars() returns (r: Reply<Option<seq<CalendarRef>>>)
      modifies this
      ensures log == old(log) + [Request.ListCalendars]
      ensures r == oracles.calendars(|old(log)|)
    {
      r := oracles.calendars(|log|);
      log := log + [Request.ListCalendars];
    }

    /** `GET calendars/{id}/events` over the synchronisation window. */
    method ListEvents(calendarId: string) returns (r: Reply<Option<seq<RawEvent>>>)
      modifies this
      ensures log == old(log) + [Request.ListEvents(calendarId)]
      ensures r == oracles.events(calendarId, |old(log)|)
    {
      r := oracles.events(calendarId, |log|);
      log := log + [Request.ListEvents(calendarId)];
    }

    /** `GET calendars/primary/events/{id}`: the master event of a series, of which only `recurrence` is read. */
    method FetchEvent(eventId: string) returns (r: Reply<Option<seq<string>>>)
      modifies this
      ensures log == old(log) + [Request.FetchEvent(eventId)]
      ensures r == oracles.master(eventId, |old(log)|)
    {
      r := oracles.master(eventId, |log|);
      log := log + [Request.FetchEvent(eventId)];
    }

    /** `DELETE calendars/primary/events/{id}`; true when the response is ok. */
    method DeleteEvent(eventId: string) returns (ok: bool)
      modifies this
      ensures log == old(log) + [Request.DeleteEvent(eventId)]
      ensures ok == oracles.delete(eventId, |old(log)|)
    {
      ok := oracles.delete(eventId, |log|);
      log := log + [Request.DeleteEvent(eventId)];
    }
  }

  /**
   * `.mem/events.json`: holds the last list written to it. Whether the n-th write
   * succeeds is fixed by `accepts`; a failed write leaves the file as it was.
   */
  class SnapshotFile<T> {
    var contents: Option<seq<T>>
    var writes: nat
    const accepts: nat -> bool

    constructor (accepts: nat -> bool)
      ensures this.accepts == accepts && contents == None && writes == 0
    {
      this.accepts := accepts;
      contents := None;
      writes := 0;
    }

    method Write(items: seq<T>) returns (ok: bool)
      modifies this
      ensures ok == accepts(old(writes))
      ensures writes == old(writes) + 1
      ensures contents == if ok then Some(items) else old(contents)
    {
      ok := accepts(writes);
      if ok {
        contents := Some(items);
      }
      writes := writes + 1;
    }
  }
}
