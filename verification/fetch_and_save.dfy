/**
 * `fetchAndSaveEvents`: list the calendars, store them in the context, collect the
 * normalised events of every calendar (with `x`), store them in the context, write
 * them to the snapshot file and return them.
 */
module FetchAndSave {
  import opened Wrappers
  import opened Records
  import opened Normalization
  import opened Gateway
  import opened RecurrenceCache
  import opened Sync
  import opened CaldavContext

  /** What a run collects from the calendar list `calendars`, starting from the cache and requests given. */
  function Collected(o: Oracles, entries: map<string, seq<string>>, log: seq<Request>,
                     calendars: seq<CalendarRef>): Run<Event>
  {
    CalendarsLoop(o, Normalize, Run([], Trace(entries, log)), calendars)
  }

  method FetchAndSaveEvents(ctx: Context, api: CalendarApi, cache: Cache, file: SnapshotFile<Event>)
    returns (r: Result<seq<Event>, Failure>)
    modifies ctx, api, cache, file
    // No user: `getUser` throws before anything is sent or changed.
    ensures old(ctx.user).None? ==>
      r == Err(UserNotInitialized) && unchanged(ctx, api, cache, file)
    // The calendar list is not ok: only that request was sent, nothing else changed.
    ensures old(ctx.user).Some? && !api.oracles.calendars(|old(api.log)|).Response? ==>
      && r == Err(CalendarsNotFetched)
      && api.log == old(api.log) + [ListCalendars]
      && unchanged(ctx, cache, file)
    // Otherwise: the calendars and the collected events go to the context, the events to the file.
    ensures old(ctx.user).Some? && api.oracles.calendars(|old(api.log)|).Response? ==>
      var calendars := api.oracles.calendars(|old(api.log)|).body.GetOr([]);
      var run := Collected(api.oracles, old(cache.entries), old(api.log) + [ListCalendars], calendars);
      && ctx.calendars == calendars
      && ctx.events == run.out
      && ctx.user == old(ctx.user) && ctx.isInitialized == old(ctx.isInitialized)
      && cache.entries == run.trace.entries
      && api.log == run.trace.log
      && file.writes == old(file.writes) + 1
      && (file.accepts(old(file.writes)) ==> r == Ok(run.out) && file.contents == Some(run.out))
      && (!file.accepts(old(file.writes)) ==> r == Err(SnapshotNotWritten) && file.contents == old(file.contents))
  {
    var user := ctx.GetUser();
    if user.Err? {
      return Err(user.error);
    }
    var calendarsResponse := api.ListCalendars();
    if !calendarsResponse.Response? {
      return Err(CalendarsNotFetched);
    }
    var calendars := calendarsResponse.body.GetOr([]);
    ghost var signedIn, initialized := ctx.user, ctx.isInitialized;
    ctx.Set(CalendarsEntry(calendars));
    assert ctx.Get(UserKey) == UserEntry(signedIn) && ctx.Get(IsInitializedKey) == IsInitializedEntry(initialized);
    var allEvents := SyncCalendars(api, cache, Normalize, calendars);
    ctx.Set(EventsEntry(allEvents));
    assert ctx.Get(UserKey) == UserEntry(signedIn) && ctx.Get(IsInitializedKey) == IsInitializedEntry(initialized);
    assert ctx.Get(CalendarsKey) == CalendarsEntry(calendars);
    var written := file.Write(allEvents);
    if !written {
      return Err(SnapshotNotWritten);
    }
    return Ok(allEvents);
  }

  /**
   * What a successful run returns is what it stored in the context and wrote to the
   * file: one list, in calendar order, with every calendar's events request sent once
   * and in order, and the cache entries it started with still in place.
   */
  lemma CollectedRun(o: Oracles, entries: map<string, seq<string>>, log: seq<Request>,
                     calendars: seq<CalendarRef>)
    ensures var run := Collected(o, entries, log, calendars);
      && ListedCalendars(run.trace.log) == ListedCalendars(log) + CalendarIds(calendars)
      && |log| <= |run.trace.log| && run.trace.log[..|log|] == log
      && (forall id :: id in entries ==> id in run.trace.entries && run.trace.entries[id] == entries[id])
      && (forall k :: |log| <= k < |run.trace.log| && run.trace.log[k].FetchEvent? ==>
            run.trace.log[k].eventId !in entries)
  {
    CalendarsLoopListings(o, Normalize, Run([], Trace(entries, log)), calendars);
    CalendarsLoopLogGrows(o, Normalize, Run([], Trace(entries, log)), calendars);
    CalendarsLoopCache(o, Normalize, Run([], Trace(entries, log)), calendars);
  }

  /**
   * Cache entries survive from one run to the next: an id a first run stored is not
   * fetched again by a second run with the same cache.
   */
  lemma CacheSurvivesRuns(o: Oracles, entries: map<string, seq<string>>, log: seq<Request>,
                          first: seq<CalendarRef>, second: seq<CalendarRef>, id: string)
    requires var r1 := Collected(o, entries, log, first); id in r1.trace.entries
    ensures var r1 := Collected(o, entries, log, first);
      var r2 := Collected(o, r1.trace.entries, r1.trace.log, second);
      && id in r2.trace.entries && r2.trace.entries[id] == r1.trace.entries[id]
      && forall k :: |r1.trace.log| <= k < |r2.trace.log| ==> r2.trace.log[k] != FetchEvent(id)
  {
    var r1 := Collected(o, entries, log, first);
    CollectedRun(o, r1.trace.entries, r1.trace.log, second);
  }
}
