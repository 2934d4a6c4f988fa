/**
 * `fetchEvents(user)` of the older synchronisation: the same calendar loop with its
 * own memo cache, records without `x` whose `start`/`end` may be undefined, no
 * context, and the list written to the snapshot file and returned.
 */
module LegacyCalendar {
  import opened Wrappers
  import opened Records
  import opened Normalization
  import opened Gateway
  import opened RecurrenceCache
  import opened Sync

  method FetchEvents(user: User, api: CalendarApi, cache: Cache, file: SnapshotFile<LegacyEvent>)
    returns (r: Result<seq<LegacyEvent>, Failure>)
    modifies api, cache, file
    // The calendar list is not ok: only that request was sent, nothing else changed.
    ensures !api.oracles.calendars(|old(api.log)|).Response? ==>
      && r == Err(CalendarsNotFetched)
      && api.log == old(api.log) + [ListCalendars]
      && unchanged(cache, file)
    // Otherwise: the collected events are written and returned.
    ensures api.oracles.calendars(|old(api.log)|).Response? ==>
      var calendars := api.oracles.calendars(|old(api.log)|).body.GetOr([]);
      var run := CalendarsLoop(api.oracles, NormalizeLegacy,
                               Run([], Trace(old(cache.entries), old(api.log) + [ListCalendars])), calendars);
      && cache.entries == run.trace.entries
      && api.log == run.trace.log
      && file.writes == old(file.writes) + 1
      && (file.accepts(old(file.writes)) ==> r == Ok(run.out) && file.contents == Some(run.out))
      && (!file.accepts(old(file.writes)) ==> r == Err(SnapshotNotWritten) && file.contents == old(file.contents))
  {
    var calendarsResponse := api.ListCalendars();
    if !calendarsResponse.Response? {
      return Err(CalendarsNotFetched);
    }
    var calendars := calendarsResponse.body.GetOr([]);
    var allEvents := SyncCalendars(api, cache, NormalizeLegacy, calendars);
    var written := file.Write(allEvents);
    if !written {
      return Err(SnapshotNotWritten);
    }
    return Ok(allEvents);
  }

  /**
   * Two records, one of each variant, that agree on every field they share; where the
   * older record has no usable `start` or `end`, the newer one has `''` there.
   */
  predicate Alike(r: Event, l: LegacyEvent)
  {
    && r.id == l.id && r.title == l.title && r.description == l.description
    && r.location == l.location && r.calendar == l.calendar && r.calendarId == l.calendarId
    && r.htmlLink == l.htmlLink && r.recurrence == l.recurrence
    && r.recurrenceRules == l.recurrenceRules && r.recurringEventId == l.recurringEventId
    && (Truthy(l.start) ==> r.start == l.start.value)
    && (!Truthy(l.start) ==> r.start == "")
    && (Truthy(l.end) ==> r.end == l.end.value)
    && (!Truthy(l.end) ==> r.end == "")
  }

  /**
   * Run on the same answers and the same cache, the two synchronisations send the
   * same requests, leave the same cache, and produce lists of the same length whose
   * records agree field by field as the normalisers do.
   */
  lemma VariantsRunAlike(o: Oracles, run: Run<Event>, legacy: Run<LegacyEvent>, calendars: seq<CalendarRef>)
    requires run.trace == legacy.trace && |run.out| == |legacy.out|
    ensures var r := CalendarsLoop(o, Normalize, run, calendars);
      var l := CalendarsLoop(o, NormalizeLegacy, legacy, calendars);
      && r.trace == l.trace
      && |r.out| == |l.out|
      && (forall i :: |run.out| <= i < |r.out| ==> Alike(r.out[i], l.out[i]))
  {
    NormalizersAlike();
    CalendarsLoopsAlike(o, Normalize, NormalizeLegacy, run, legacy, calendars);
  }

  /** The two normalisers make alike records of every item, calendar and lines. */
  lemma NormalizersAlike()
    ensures forall e, c, lines :: Alike(Normalize(e, c, lines), NormalizeLegacy(e, c, lines))
  {
    forall e, c, lines
      ensures Alike(Normalize(e, c, lines), NormalizeLegacy(e, c, lines))
    {
      VariantsAgree(e, c, lines);
    }
  }

  /** The outer loop run with two normalisers that make alike records keeps its outputs alike. */
  lemma {:induction false} CalendarsLoopsAlike(o: Oracles, n1: (RawEvent, CalendarRef, seq<string>) -> Event,
                                               n2: (RawEvent, CalendarRef, seq<string>) -> LegacyEvent,
                                               run: Run<Event>, legacy: Run<LegacyEvent>, calendars: seq<CalendarRef>)
    requires run.trace == legacy.trace && |run.out| == |legacy.out|
    requires forall e, c, lines :: Alike(n1(e, c, lines), n2(e, c, lines))
    ensures var r := CalendarsLoop(o, n1, run, calendars);
      var l := CalendarsLoop(o, n2, legacy, calendars);
      && r.trace == l.trace
      && |r.out| == |l.out|
      && (forall i :: |run.out| <= i < |r.out| ==> Alike(r.out[i], l.out[i]))
    decreases |calendars|
  {
    if calendars != [] {
      var c := calendars[0];
      var t := run.trace.(log := run.trace.log + [ListEvents(c.id)]);
      var step := CalendarStep(o, n1, run, c);
      var lstep := CalendarStep(o, n2, legacy, c);
      if o.events(c.id, |run.trace.log|).Response? {
        var items := o.events(c.id, |run.trace.log|).body.GetOr([]);
        EventsLoopAlike(o, n1, n2, c, Run(run.out, t), Run(legacy.out, t), items);
      }
      CalendarsLoopsAlike(o, n1, n2, step, lstep, calendars[1..]);
      CalendarsLoopAppends(o, n1, step, calendars[1..]);
      CalendarsLoopAppends(o, n2, lstep, calendars[1..]);
      var r := CalendarsLoop(o, n1, run, calendars);
      var l := CalendarsLoop(o, n2, legacy, calendars);
      forall i | |run.out| <= i < |step.out|
        ensures Alike(r.out[i], l.out[i])
      {
        assert r.out[i] == r.out[..|step.out|][i];
        assert l.out[i] == l.out[..|lstep.out|][i];
      }
    }
  }

  /** The state an inner loop leaves does not depend on the normaliser. */
  lemma {:induction false} EventsLoopTrace<T, U>(o: Oracles, n1: (RawEvent, CalendarRef, seq<string>) -> T,
                                                 n2: (RawEvent, CalendarRef, seq<string>) -> U,
                                                 c: CalendarRef, r1: Run<T>, r2: Run<U>, items: seq<RawEvent>)
    requires r1.trace == r2.trace
    ensures EventsLoop(o, n1, c, r1, items).trace == EventsLoop(o, n2, c, r2, items).trace
    decreases |items|
  {
    if items != [] {
      var ln := ResolveLines(o, r1.trace, items[0]);
      EventsLoopTrace(o, n1, n2, c, Run(r1.out + [n1(items[0], c, ln.lines)], ln.trace),
                      Run(r2.out + [n2(items[0], c, ln.lines)], ln.trace), items[1..]);
    }
  }

  /** The inner loop run with two normalisers that make alike records, on the same items and state, keeps its outputs alike. */
  lemma EventsLoopAlike(o: Oracles, n1: (RawEvent, CalendarRef, seq<string>) -> Event,
                        n2: (RawEvent, CalendarRef, seq<string>) -> LegacyEvent,
                        c: CalendarRef, run: Run<Event>, legacy: Run<LegacyEvent>, items: seq<RawEvent>)
    requires run.trace == legacy.trace && |run.out| == |legacy.out|
    requires forall e, lines :: Alike(n1(e, c, lines), n2(e, c, lines))
    ensures var r := EventsLoop(o, n1, c, run, items);
      var l := EventsLoop(o, n2, c, legacy, items);
      && r.trace == l.trace
      && |r.out| == |l.out|
      && (forall i :: |run.out| <= i < |r.out| ==> Alike(r.out[i], l.out[i]))
  {
    EventsLoopTrace(o, n1, n2, c, run, legacy, items);
    EventsLoopRecords(o, n1, c, run, items);
    EventsLoopRecords(o, n2, c, legacy, items);
    var r := EventsLoop(o, n1, c, run, items);
    var l := EventsLoop(o, n2, c, legacy, items);
    var lines := ItemLines(o, run.trace, items);
    forall i | |run.out| <= i < |r.out|
      ensures Alike(r.out[i], l.out[i])
    {
      var j := i - |run.out|;
      assert r.out[|run.out| + j] == n1(items[j], c, lines[j]);
      assert l.out[|run.out| + j] == n2(items[j], c, lines[j]);
    }
  }
}
