/**
 * The application's context store: one record of four fields behind `get`/`set`,
 * with accessors for each and a `getUser` that fails when no user is signed in.
 */
module CaldavContext {
  import opened Wrappers
  import opened Records

  /** The names of the record's fields, the keys `get` and `set` accept. */
  datatype Key = UserKey | CalendarsKey | EventsKey | IsInitializedKey

  /** A field's name together with a value of its type. */
  datatype Entry =
    | UserEntry(user: Option<User>)
    | CalendarsEntry(calendars: seq<CalendarRef>)
    | EventsEntry(events: seq<Event>)
    | IsInitializedEntry(isInitialized: bool)
  {
    function Key(): Key
    {
      match this
      case UserEntry(_) => UserKey
      case CalendarsEntry(_) => CalendarsKey
      case EventsEntry(_) => EventsKey
      case IsInitializedEntry(_) => IsInitializedKey
    }
  }

  class Context {
    var user: Option<User>
    var calendars: seq<CalendarRef>
    var events: seq<Event>
    var isInitialized: bool

    /** The store as the application starts it: no user, no calendars, no events, not initialised. */
    constructor ()
      ensures user == None && calendars == [] && events == [] && !isInitialized
    {
      user := None;
      calendars := [];
      events := [];
      isInitialized := false;
    }

    /** `get(key)`: the field named by `key`. */
    function Get(key: Key): (e: Entry)
      reads this
      ensures e.Key() == key
    {
      match key
      case UserKey => UserEntry(user)
      case CalendarsKey => CalendarsEntry(calendars)
      case EventsKey => EventsEntry(events)
      case IsInitializedKey => IsInitializedEntry(isInitialized)
    }

    /** `set(key, value)`: replaces that one field. */
    method Set(e: Entry)
      modifies this
      ensures Get(e.Key()) == e
      ensures forall k :: k != e.Key() ==> Get(k) == old(Get(k))
    {
      match e
      case UserEntry(u) => user := u;
      case CalendarsEntry(c) => calendars := c;
      case EventsEntry(v) => events := v;
      case IsInitializedEntry(b) => isInitialized := b;
    }

    /** `getUser()`: the user, or the `User not initialized` error when there is none. */
    function GetUser(): (r: Result<User, Failure>)
      reads this
      ensures r.Err? <==> Get(UserKey) == UserEntry(None)
      ensures r.Err? ==> r.error == UserNotInitialized
      ensures r.Ok? ==> Get(UserKey) == UserEntry(Some(r.value))
    {
      if user.None? then Err(UserNotInitialized) else Ok(user.value)
    }

    /** `getCalendars()`, the same as `get('calendars')`. */
    function GetCalendars(): (c: seq<CalendarRef>)
      reads this
      ensures Get(CalendarsKey) == CalendarsEntry(c)
    {
      calendars
    }

    /** `getEvents()`, the same as `get('events')`. */
    function GetEvents(): (v: seq<Event>)
      reads this
      ensures Get(EventsKey) == EventsEntry(v)
    {
      events
    }

    /** `isReady()`, the same as `get('isInitialized')`. */
    function IsReady(): (b: bool)
      reads this
      ensures Get(IsInitializedKey) == IsInitializedEntry(b)
    {
      isInitialized
    }
  }
}
