/**
 * The construction of a normalised event from an API item (`eventInfo` and `x`),
 * with JavaScript's `||` fallbacks: an absent or empty string counts as false.
 */
module Normalization {
  import opened Wrappers
  import opened RRule
  import opened Records

  /** The title an event without a (non-empty) summary gets. */
  const NoTitle: string := "No title"

  /** A JavaScript string that is neither `undefined` nor `''`. */
  predicate Truthy(s: Option<string>)
  {
    s.Some? && s.value != ""
  }

  /** `s || fallback` for a string fallback. */
  function OrElse(s: Option<string>, fallback: string): (r: string)
    ensures Truthy(s) ==> r == s.value
    ensures !Truthy(s) ==> r == fallback
  {
    if Truthy(s) then s.value else fallback
  }

  /** `t?.dateTime || t?.date || ''`. */
  function TimeOf(t: Option<EventTime>): string
  {
    if t.None? then ""
    else OrElse(t.value.dateTime, OrElse(t.value.date, ""))
  }

  /** `t?.dateTime || t?.date`: the older variant, which leaves `date` as it is when `dateTime` is falsy. */
  function LegacyTimeOf(t: Option<EventTime>): Option<string>
  {
    if t.None? then None
    else if Truthy(t.value.dateTime) then t.value.dateTime
    else t.value.date
  }

  /**
   * `event.recurringEventId && !event.recurrence?.length`: the item is an instance
   * of a recurring series and carries no recurrence lines of its own, so the
   * master event's lines are looked up.
   */
  predicate NeedsMaster(e: RawEvent)
  {
    Truthy(e.recurringEventId) && (e.recurrence.None? || |e.recurrence.value| == 0)
  }

  /** `event.recurrence || []`: the item's own recurrence lines. */
  function OwnLines(e: RawEvent): seq<string>
  {
    e.recurrence.GetOr([])
  }

  /** The `x` object: each of `private` and `shared` copied when the item has it. */
  function ExtendedOf(e: RawEvent): ExtendedProperties
  {
    if e.extendedProperties.None? then NoExtendedProperties
    else ExtendedProperties(e.extendedProperties.value.private, e.extendedProperties.value.shared)
  }

  /** `eventInfo` of the context-keeping synchronisation, given the resolved recurrence lines. */
  function Normalize(e: RawEvent, calendar: CalendarRef, lines: seq<string>): (r: Event)
    ensures r.title != "" && |r.recurrenceRules| == |r.recurrence| == |lines|
  {
    Event(
      e.id,
      OrElse(e.summary, NoTitle),
      OrElse(e.description, ""),
      OrElse(e.location, ""),
      TimeOf(e.start),
      TimeOf(e.end),
      calendar.summary,
      calendar.id,
      e.htmlLink,
      lines,
      ParseRecurrenceArray(lines),
      e.recurringEventId,
      ExtendedOf(e))
  }

  /** `eventInfo` of the older synchronisation, given the resolved recurrence lines. */
  function NormalizeLegacy(e: RawEvent, calendar: CalendarRef, lines: seq<string>): (r: LegacyEvent)
    ensures r.title != "" && |r.recurrenceRules| == |r.recurrence| == |lines|
  {
    LegacyEvent(
      e.id,
      OrElse(e.summary, NoTitle),
      OrElse(e.description, ""),
      OrElse(e.location, ""),
      LegacyTimeOf(e.start),
      LegacyTimeOf(e.end),
      calendar.summary,
      calendar.id,
      e.htmlLink,
      lines,
      ParseRecurrenceArray(lines),
      e.recurringEventId)
  }

  // ---------------------------------------------------------------------------
  // Properties of the normalised record

  /**
   * The title is the summary when it is non-empty and `No title` otherwise, so it is
   * never empty; description and location default to `''`.
   */
  lemma TitleFallback(e: RawEvent, calendar: CalendarRef, lines: seq<string>)
    ensures var r := Normalize(e, calendar, lines);
      && r.title != ""
      && (Truthy(e.summary) ==> r.title == e.summary.value)
      && (!Truthy(e.summary) ==> r.title == NoTitle)
      && (e.description.Some? ==> r.description == e.description.value)
      && (e.description.None? ==> r.description == "")
      && (e.location.Some? ==> r.location == e.location.value)
      && (e.location.None? ==> r.location == "")
  {
  }

  /**
   * `start` is the `dateTime` when it is non-empty, else the `date` when it is
   * non-empty, else `''`; it is `''` exactly when neither is usable.
   */
  lemma StartFallback(e: RawEvent, calendar: CalendarRef, lines: seq<string>)
    ensures var r := Normalize(e, calendar, lines);
      && (e.start.Some? && Truthy(e.start.value.dateTime) ==> r.start == e.start.value.dateTime.value)
      && (e.start.Some? && !Truthy(e.start.value.dateTime) && Truthy(e.start.value.date) ==>
            r.start == e.start.value.date.value)
      && (r.start == "" <==>
            e.start.None? || (!Truthy(e.start.value.dateTime) && !Truthy(e.start.value.date)))
  {
  }

  /** The same fallbacks for `end`. */
  lemma EndFallback(e: RawEvent, calendar: CalendarRef, lines: seq<string>)
    ensures var r := Normalize(e, calendar, lines);
      && (e.end.Some? && Truthy(e.end.value.dateTime) ==> r.end == e.end.value.dateTime.value)
      && (e.end.Some? && !Truthy(e.end.value.dateTime) && Truthy(e.end.value.date) ==>
            r.end == e.end.value.date.value)
      && (r.end == "" <==>
            e.end.None? || (!Truthy(e.end.value.dateTime) && !Truthy(e.end.value.date)))
  {
  }

  /**
   * The record keeps the resolved lines and their parse side by side, one rule per
   * line, and records which calendar it came from.
   */
  lemma RulesMatchLines(e: RawEvent, calendar: CalendarRef, lines: seq<string>)
    ensures var r := Normalize(e, calendar, lines);
      && r.recurrence == lines
      && |r.recurrenceRules| == |r.recurrence|
      && (forall i :: 0 <= i < |lines| ==> r.recurrenceRules[i] == RuleOf(r.recurrence[i]))
      && r.id == e.id && r.calendar == calendar.summary && r.calendarId == calendar.id
      && r.recurringEventId == e.recurringEventId && r.htmlLink == e.htmlLink
  {
    RulesPerLine(lines);
  }

  /** `x.private` and `x.shared` are present exactly when the item had them, with the same contents. */
  lemma ExtendedCopied(e: RawEvent, calendar: CalendarRef, lines: seq<string>)
    ensures var x := Normalize(e, calendar, lines).x;
      && (x.private.Some? <==> e.extendedProperties.Some? && e.extendedProperties.value.private.Some?)
      && (x.shared.Some? <==> e.extendedProperties.Some? && e.extendedProperties.value.shared.Some?)
      && (x.private.Some? ==> x.private == e.extendedProperties.value.private)
      && (x.shared.Some? ==> x.shared == e.extendedProperties.value.shared)
  {
  }

  /**
   * The master event is consulted only for an instance of a series without lines of
   * its own; an item with lines keeps them.
   */
  lemma OwnLinesKept(e: RawEvent)
    ensures e.recurrence.Some? && |e.recurrence.value| > 0 ==> !NeedsMaster(e) && OwnLines(e) == e.recurrence.value
    ensures !Truthy(e.recurringEventId) ==> !NeedsMaster(e)
    ensures NeedsMaster(e) ==> OwnLines(e) == []
  {
  }

  /**
   * The two variants agree on every shared field; where the older one has a usable
   * `start`/`end` the newer one has the same string, and where the older one has none
   * (undefined or `''`) the newer one has `''`.
   */
  lemma VariantsAgree(e: RawEvent, calendar: CalendarRef, lines: seq<string>)
    ensures var r := Normalize(e, calendar, lines);
      var l := NormalizeLegacy(e, calendar, lines);
      && r.id == l.id && r.title == l.title && r.description == l.description
      && r.location == l.location && r.calendar == l.calendar && r.calendarId == l.calendarId
      && r.htmlLink == l.htmlLink && r.recurrence == l.recurrence
      && r.recurrenceRules == l.recurrenceRules && r.recurringEventId == l.recurringEventId
      && (Truthy(l.start) ==> r.start == l.start.value)
      && (!Truthy(l.start) ==> r.start == "")
      && (Truthy(l.end) ==> r.end == l.end.value)
      && (!Truthy(l.end) ==> r.end == "")
  {
  }

  /** The older variant leaves `start` undefined when the item has neither `start` nor a `date`. */
  lemma LegacyStartUndefined(e: RawEvent)
    ensures e.start.None? ==> LegacyTimeOf(e.start).None?
    ensures e.start.Some? && !Truthy(e.start.value.dateTime) ==> LegacyTimeOf(e.start) == e.start.value.date
    ensures e.start.Some? && Truthy(e.start.value.dateTime) ==> LegacyTimeOf(e.start) == e.start.value.dateTime
  {
  }
}
