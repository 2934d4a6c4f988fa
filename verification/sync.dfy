/**
 * The calendar loop both synchronisations share: for every calendar of the list,
 * request its events; skip the calendar when the request is not ok or throws;
 * otherwise push one normalised record per returned item, in response order,
 * resolving the recurrence lines of series instances through the memo cache.
 * The normaliser is a parameter, so the same loop serves the variant with `x`
 * and the older variant without it.
 */
module Sync {
  import opened Wrappers
  import opened Records
  import opened Normalization
  import opened Gateway
  import opened RecurrenceCache

  /** What the loop has produced so far: the output list and the cache and request state. */
  datatype Run<T> = Run(out: seq<T>, trace: Trace)

  /** The recurrence lines an item ends up with, and the state after resolving them. */
  function ResolveLines(o: Oracles, t: Trace, e: RawEvent): Lookup
  {
    if NeedsMaster(e) then LookupRules(o, t, e.recurringEventId.value) else Lookup(OwnLines(e), t)
  }

  /** The inner loop over the items of one calendar. */
  function EventsLoop<T>(o: Oracles, norm: (RawEvent, CalendarRef, seq<string>) -> T,
                         calendar: CalendarRef, run: Run<T>, items: seq<RawEvent>): Run<T>
    decreases |items|
  {
    if items == [] then run
    else
      var l := ResolveLines(o, run.trace, items[0]);
      EventsLoop(o, norm, calendar, Run(run.out + [norm(items[0], calendar, l.lines)], l.trace), items[1..])
  }

  /** One turn of the outer loop: the events request, then either nothing or the inner loop. */
  function CalendarStep<T>(o: Oracles, norm: (RawEvent, CalendarRef, seq<string>) -> T,
                           run: Run<T>, calendar: CalendarRef): Run<T>
  {
    var t := run.trace.(log := run.trace.log + [ListEvents(calendar.id)]);
    match o.events(calendar.id, |run.trace.log|)
    case Response(items) => EventsLoop(o, norm, calendar, Run(run.out, t), items.GetOr([]))
    case _ => Run(run.out, t)
  }

  /** The outer loop over the calendars, in list order. */
  function CalendarsLoop<T>(o: Oracles, norm: (RawEvent, CalendarRef, seq<string>) -> T,
                            run: Run<T>, calendars: seq<CalendarRef>): Run<T>
    decreases |calendars|
  {
    if calendars == [] then run
    else CalendarsLoop(o, norm, CalendarStep(o, norm, run, calendars[0]), calendars[1..])
  }

  /** The nested loops, with `continue` for a calendar that was not answered and `catch` for one that threw. */
  method SyncCalendars<T>(api: CalendarApi, cache: Cache, norm: (RawEvent, CalendarRef, seq<string>) -> T,
                          calendars: seq<CalendarRef>) returns (out: seq<T>)
    modifies api, cache
    ensures Run(out, Trace(cache.entries, api.log))
         == CalendarsLoop(api.oracles, norm, Run([], Trace(old(cache.entries), old(api.log))), calendars)
  {
    out := [];
    for i := 0 to |calendars|
      invariant CalendarsLoop(api.oracles, norm, Run(out, Trace(cache.entries, api.log)), calendars[i..])
             == CalendarsLoop(api.oracles, norm, Run([], Trace(old(cache.entries), old(api.log))), calendars)
    {
      var calendar := calendars[i];
      assert calendars[i..][1..] == calendars[i + 1..];
      ghost var before := Run(out, Trace(cache.entries, api.log));
      var reply := api.ListEvents(calendar.id);
      if !reply.Response? {
        continue;
      }
      var items := reply.body.GetOr([]);
      for j := 0 to |items|
        invariant EventsLoop(api.oracles, norm, calendar, Run(out, Trace(cache.entries, api.log)), items[j..])
               == CalendarStep(api.oracles, norm, before, calendar)
      {
        var item := items[j];
        assert items[j..][1..] == items[j + 1..];
        var lines := item.recurrence.GetOr([]);
        if NeedsMaster(item) {
          lines := cache.GetRecurrenceRules(api, item.recurringEventId.value);
        }
        out := out + [norm(item, calendar, lines)];
      }
    }
  }

  // ---------------------------------------------------------------------------
  // The output list

  /** The lines each item of a calendar gets, in order, the cache state threaded through. */
  function ItemLines(o: Oracles, t: Trace, items: seq<RawEvent>): (lines: seq<seq<string>>)
    ensures |lines| == |items|
    decreases |items|
  {
    if items == [] then []
    else
      var l := ResolveLines(o, t, items[0]);
      [l.lines] + ItemLines(o, l.trace, items[1..])
  }

  /** An item with lines of its own, or that is no series instance, keeps its own lines. */
  lemma {:induction false} ItemLinesOwn(o: Oracles, t: Trace, items: seq<RawEvent>, i: nat)
    requires i < |items| && !NeedsMaster(items[i])
    ensures ItemLines(o, t, items)[i] == OwnLines(items[i])
    decreases i
  {
    if i > 0 {
      ItemLinesOwn(o, ResolveLines(o, t, items[0]).trace, items[1..], i - 1);
    }
  }

  /**
   * The inner loop appends exactly one record per item, in item order, built from
   * the item, its calendar and the lines it resolved to; nothing already in the
   * output moves.
   */
  lemma {:induction false} EventsLoopRecords<T>(o: Oracles, norm: (RawEvent, CalendarRef, seq<string>) -> T,
                                                calendar: CalendarRef, run: Run<T>, items: seq<RawEvent>)
    ensures var r := EventsLoop(o, norm, calendar, run, items);
      var lines := ItemLines(o, run.trace, items);
      && |r.out| == |run.out| + |items|
      && r.out[..|run.out|] == run.out
      && forall i :: 0 <= i < |items| ==> r.out[|run.out| + i] == norm(items[i], calendar, lines[i])
    decreases |items|
  {
    if items != [] {
      var l := ResolveLines(o, run.trace, items[0]);
      var next := Run(run.out + [norm(items[0], calendar, l.lines)], l.trace);
      EventsLoopRecords(o, norm, calendar, next, items[1..]);
      var r := EventsLoop(o, norm, calendar, run, items);
      assert r.out[..|next.out|] == next.out;
      assert r.out[..|run.out|] == next.out[..|run.out|];
      forall i | 0 <= i < |items|
        ensures r.out[|run.out| + i] == norm(items[i], calendar, ItemLines(o, run.trace, items)[i])
      {
        if i > 0 {
          assert r.out[|next.out| + (i - 1)] == norm(items[1..][i - 1], calendar, ItemLines(o, l.trace, items[1..])[i - 1]);
        }
      }
    }
  }

  /** A calendar whose events request is not ok or throws adds nothing and stores nothing. */
  lemma FailedCalendarSkipped<T>(o: Oracles, norm: (RawEvent, CalendarRef, seq<string>) -> T,
                                 run: Run<T>, calendar: CalendarRef)
    requires !o.events(calendar.id, |run.trace.log|).Response?
    ensures CalendarStep(o, norm, run, calendar)
         == Run(run.out, Trace(run.trace.entries, run.trace.log + [ListEvents(calendar.id)]))
  {
  }

  /**
   * An answered calendar contributes one record per item of its response (`items`
   * missing meaning none), in response order, each built from the item and this
   * calendar.
   */
  lemma AnsweredCalendarRecords<T>(o: Oracles, norm: (RawEvent, CalendarRef, seq<string>) -> T,
                                   run: Run<T>, calendar: CalendarRef)
    requires o.events(calendar.id, |run.trace.log|).Response?
    ensures var items := o.events(calendar.id, |run.trace.log|).body.GetOr([]);
      var r := CalendarStep(o, norm, run, calendar);
      var lines := ItemLines(o, Trace(run.trace.entries, run.trace.log + [ListEvents(calendar.id)]), items);
      && |r.out| == |run.out| + |items|
      && r.out[..|run.out|] == run.out
      && forall i :: 0 <= i < |items| ==> r.out[|run.out| + i] == norm(items[i], calendar, lines[i])
  {
    var items := o.events(calendar.id, |run.trace.log|).body.GetOr([]);
    var t := run.trace.(log := run.trace.log + [ListEvents(calendar.id)]);
    EventsLoopRecords(o, norm, calendar, Run(run.out, t), items);
  }

  /** Running the calendars of `a` and then those of `b` is running `a + b`: the output is in calendar order. */
  lemma {:induction false} CalendarsLoopConcat<T>(o: Oracles, norm: (RawEvent, CalendarRef, seq<string>) -> T,
                                                  run: Run<T>, a: seq<CalendarRef>, b: seq<CalendarRef>)
    ensures CalendarsLoop(o, norm, run, a + b) == CalendarsLoop(o, norm, CalendarsLoop(o, norm, run, a), b)
    decreases |a|
  {
    if a == [] {
      assert a + b == b;
    } else {
      assert (a + b)[1..] == a[1..] + b;
      CalendarsLoopConcat(o, norm, CalendarStep(o, norm, run, a[0]), a[1..], b);
    }
  }

  /** The loops only append to the output: earlier records are never removed or re-sorted. */
  lemma {:induction false} CalendarsLoopAppends<T>(o: Oracles, norm: (RawEvent, CalendarRef, seq<string>) -> T,
                                                   run: Run<T>, calendars: seq<CalendarRef>)
    ensures var r := CalendarsLoop(o, norm, run, calendars);
      |run.out| <= |r.out| && r.out[..|run.out|] == run.out
    decreases |calendars|
  {
    if calendars != [] {
      var step := CalendarStep(o, norm, run, calendars[0]);
      var t := run.trace.(log := run.trace.log + [ListEvents(calendars[0].id)]);
      match o.events(calendars[0].id, |run.trace.log|) {
        case Response(items) =>
          EventsLoopRecords(o, norm, calendars[0], Run(run.out, t), items.GetOr([]));
        case _ =>
      }
      CalendarsLoopAppends(o, norm, step, calendars[1..]);
      var r := CalendarsLoop(o, norm, run, calendars);
      assert r.out[..|run.out|] == r.out[..|step.out|][..|run.out|];
    }
  }

  // ---------------------------------------------------------------------------
  // The requests

  /** The calendar ids of the events requests in a log, in order. */
  function ListedCalendars(log: seq<Request>): seq<string>
  {
    if log == [] then []
    else if log[0].ListEvents? then [log[0].calendarId] + ListedCalendars(log[1..])
    else ListedCalendars(log[1..])
  }

  /** The ids of a calendar list, in order. */
  function CalendarIds(calendars: seq<CalendarRef>): seq<string>
  {
    if calendars == [] then [] else [calendars[0].id] + CalendarIds(calendars[1..])
  }

  lemma {:induction false} ListedCalendarsAppend(a: seq<Request>, b: seq<Request>)
    ensures ListedCalendars(a + b) == ListedCalendars(a) + ListedCalendars(b)
    decreases |a|
  {
    if a == [] {
      assert a + b == b;
    } else {
      assert (a + b)[1..] == a[1..] + b;
      ListedCalendarsAppend(a[1..], b);
    }
  }

  /** The inner loop sends only master-event requests, each for an id that was not cached when the loop began. */
  lemma {:induction false} EventsLoopFetchesOnly<T>(o: Oracles, norm: (RawEvent, CalendarRef, seq<string>) -> T,
                                                    calendar: CalendarRef, run: Run<T>, items: seq<RawEvent>)
    ensures var r := EventsLoop(o, norm, calendar, run, items);
      && |run.trace.log| <= |r.trace.log| && r.trace.log[..|run.trace.log|] == run.trace.log
      && (forall k :: |run.trace.log| <= k < |r.trace.log| ==>
            r.trace.log[k].FetchEvent? && r.trace.log[k].eventId !in run.trace.entries)
      && (forall id :: id in run.trace.entries ==>
            id in r.trace.entries && r.trace.entries[id] == run.trace.entries[id])
    decreases |items|
  {
    if items != [] {
      var l := ResolveLines(o, run.trace, items[0]);
      if NeedsMaster(items[0]) {
        LookupGrows(o, run.trace, items[0].recurringEventId.value);
      }
      var next := Run(run.out + [norm(items[0], calendar, l.lines)], l.trace);
      EventsLoopFetchesOnly(o, norm, calendar, next, items[1..]);
      var r := EventsLoop(o, norm, calendar, run, items);
      assert r.trace.log[..|run.trace.log|] == r.trace.log[..|next.trace.log|][..|run.trace.log|];
      forall k | |run.trace.log| <= k < |r.trace.log|
        ensures r.trace.log[k].FetchEvent? && r.trace.log[k].eventId !in run.trace.entries
      {
        if k < |next.trace.log| {
          assert r.trace.log[k] == next.trace.log[k];
        }
      }
    }
  }

  /** What one turn of the outer loop does to the requests and the cache. */
  lemma CalendarStepRequests<T>(o: Oracles, norm: (RawEvent, CalendarRef, seq<string>) -> T,
                                run: Run<T>, c: CalendarRef)
    ensures var r := CalendarStep(o, norm, run, c);
      && ListedCalendars(r.trace.log) == ListedCalendars(run.trace.log) + [c.id]
      && |run.trace.log| < |r.trace.log| && r.trace.log[..|run.trace.log|] == run.trace.log
      && (forall k :: |run.trace.log| <= k < |r.trace.log| && r.trace.log[k].FetchEvent? ==>
            r.trace.log[k].eventId !in run.trace.entries)
      && (forall id :: id in run.trace.entries ==>
            id in r.trace.entries && r.trace.entries[id] == run.trace.entries[id])
  {
    var step := CalendarStep(o, norm, run, c);
    var t := run.trace.(log := run.trace.log + [ListEvents(c.id)]);
    ListedCalendarsAppend(run.trace.log, [ListEvents(c.id)]);
    assert ListedCalendars([ListEvents(c.id)]) == [c.id] by {
      assert [ListEvents(c.id)][1..] == [];
    }
    if o.events(c.id, |run.trace.log|).Response? {
      var inner := o.events(c.id, |run.trace.log|).body.GetOr([]);
      EventsLoopFetchesOnly(o, norm, c, Run(run.out, t), inner);
      var added := step.trace.log[|t.log|..];
      assert step.trace.log == t.log + added;
      NoListingsInFetches(added);
      ListedCalendarsAppend(t.log, added);
      assert step.trace.log[..|run.trace.log|] == t.log[..|run.trace.log|];
    }
  }

  /** The requests of a run extend the requests sent before it. */
  lemma {:induction false} CalendarsLoopLogGrows<T>(o: Oracles, norm: (RawEvent, CalendarRef, seq<string>) -> T,
                                                    run: Run<T>, calendars: seq<CalendarRef>)
    ensures var r := CalendarsLoop(o, norm, run, calendars);
      |run.trace.log| <= |r.trace.log| && r.trace.log[..|run.trace.log|] == run.trace.log
    decreases |calendars|
  {
    if calendars != [] {
      var step := CalendarStep(o, norm, run, calendars[0]);
      CalendarStepRequests(o, norm, run, calendars[0]);
      CalendarsLoopLogGrows(o, norm, step, calendars[1..]);
      var r := CalendarsLoop(o, norm, run, calendars);
      assert r.trace.log[..|run.trace.log|] == r.trace.log[..|step.trace.log|][..|run.trace.log|];
    }
  }

  /** One turn of the outer loop adds exactly one events request, for its calendar. */
  lemma CalendarStepListing<T>(o: Oracles, norm: (RawEvent, CalendarRef, seq<string>) -> T,
                               run: Run<T>, c: CalendarRef)
    ensures ListedCalendars(CalendarStep(o, norm, run, c).trace.log) == ListedCalendars(run.trace.log) + [c.id]
  {
    CalendarStepRequests(o, norm, run, c);
  }

  /** Every calendar of the list gets exactly one events request, in list order. */
  lemma {:induction false} CalendarsLoopListings<T>(o: Oracles, norm: (RawEvent, CalendarRef, seq<string>) -> T,
                                                    run: Run<T>, calendars: seq<CalendarRef>)
    ensures ListedCalendars(CalendarsLoop(o, norm, run, calendars).trace.log)
         == ListedCalendars(run.trace.log) + CalendarIds(calendars)
    decreases |calendars|
  {
    if calendars == [] {
      assert ListedCalendars(run.trace.log) + [] == ListedCalendars(run.trace.log);
    } else {
      var c := calendars[0];
      var step := CalendarStep(o, norm, run, c);
      CalendarStepListing(o, norm, run, c);
      CalendarsLoopListings(o, norm, step, calendars[1..]);
      var before, rest := ListedCalendars(run.trace.log), CalendarIds(calendars[1..]);
      assert CalendarIds(calendars) == [c.id] + rest;
      assert (before + [c.id]) + rest == before + ([c.id] + rest);
    }
  }

  /**
   * The only master-event fetches of a run are for ids the cache did not hold when
   * the run began, and no cache entry is changed or removed.
   */
  lemma {:induction false} CalendarsLoopCache<T>(o: Oracles, norm: (RawEvent, CalendarRef, seq<string>) -> T,
                                                 run: Run<T>, calendars: seq<CalendarRef>)
    ensures var r := CalendarsLoop(o, norm, run, calendars);
      && (forall k :: |run.trace.log| <= k < |r.trace.log| && r.trace.log[k].FetchEvent? ==>
            r.trace.log[k].eventId !in run.trace.entries)
      && (forall id :: id in run.trace.entries ==>
            id in r.trace.entries && r.trace.entries[id] == run.trace.entries[id])
    decreases |calendars|
  {
    if calendars != [] {
      var c := calendars[0];
      var step := CalendarStep(o, norm, run, c);
      CalendarStepRequests(o, norm, run, c);
      CalendarsLoopCache(o, norm, step, calendars[1..]);
      CalendarsLoopLogGrows(o, norm, step, calendars[1..]);
      var r := CalendarsLoop(o, norm, run, calendars);
      forall k | |run.trace.log| <= k < |r.trace.log| && r.trace.log[k].FetchEvent?
        ensures r.trace.log[k].eventId !in run.trace.entries
      {
        if k < |step.trace.log| {
          assert r.trace.log[k] == r.trace.log[..|step.trace.log|][k];
        }
      }
    }
  }

  /** A run of master-event fetches holds no events request. */
  lemma {:induction false} NoListingsInFetches(s: seq<Request>)
    requires forall k :: 0 <= k < |s| ==> s[k].FetchEvent?
    ensures ListedCalendars(s) == []
    decreases |s|
  {
    if s != [] {
      NoListingsInFetches(s[1..]);
    }
  }
}
