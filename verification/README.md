# Lotus calendar core, modelled in Dafny

Lotus is a small calendar tool with two halves:

- **TypeScript half.** It signs a user in to Google Calendar, then synchronises the user's calendars and events into an in-memory context and a snapshot file. It can remove every event it created itself. These are the events whose private extended property `isLotus` is `'true'`. It also renders HTML templates with `{{key}}` placeholders.
- **Rust half.** It reads a CalDAV REPORT reply (a WebDAV multistatus, section 7.8 of RFC 4791) into `href`/`etag`/`calendar-data` records. It turns iCalendar text (RFC 5545) into a tree of YAML values.

This project models the core of both halves and proves what the code promises about it:

- `rrule.dfy`, `js_number.dfy`, `text.dfy`: the lenient RECUR parser (`parseRRule`, `parseRecurrenceArray`), together with the JavaScript `split`, `toLowerCase` and `parseInt` behaviour it relies on.
- `records.dfy`, `normalize.dfy`: the API items and the normalised event records, with JavaScript's `||` fallbacks.
- `gateway.dfy`: the Google Calendar API and the snapshot file, as classes whose answers come from oracles. Every request sent is recorded in order.
- `recurrence_cache.dfy`: the module-level memo of master-event recurrence lines.
- `sync.dfy`, `fetch_and_save.dfy`, `legacy_calendar.dfy`:
  - the nested calendar/event loop, shared by `fetchAndSaveEvents` and the older `fetchEvents`;
  - the two entry points themselves;
  - a proof that the two variants agree.
- `caldav_context.dfy`: the context store as a class with four fields.
- `remove_event.dfy`: `removeEvent` and `removeAllLotusEvents`, as a loop that stops at the first failure.
- `template.dfy`: `renderTemplate`.
- `ical_parser.dfy`: the iCalendar line parser (`ICalendarParser::parse`), as a function and as the imperative loop proved equal to it.
- `utf8.dfy`: `std::str::from_utf8`, with the encode/decode round trips.
- `caldav_events.dfy`: `parse_caldav_response` over a sequence of XML reader events, and `convert_to_standardized_format`.

Network replies, file writes and thrown errors are inputs. Each API call gets its answer from an oracle indexed by its argument and by the number of requests sent before it. A write succeeds or fails according to a predicate on the write's number. `async`/`await` is plain sequential execution.

Where the comments in the code and the code itself disagree, the model follows the code:

- `convert_to_standardized_format` says it selects every tenth event. It tests `i % 100 == 0` and returns after the first hit, so it yields the parse of the first record only.
- `renderTemplate`'s `data[key] || match` keeps a placeholder whose value is the empty string.

## Model

| member | source | states |
|---|---|---|
| Text.Split | src/rruleParser.ts:27 | `split(sep)` yields at least one piece, and no piece contains the separator |
| Text.JoinSplit | src/rruleParser.ts:27 | joining the pieces of a split with the separator gives back the original string |
| Text.SplitJoin | src/rruleParser.ts:27 | splitting the join of separator-free pieces gives back those pieces |
| Text.SplitNoSeparator | src/rruleParser.ts:27 | a string without the separator splits into itself alone |
| Text.SplitAppend | src/rruleParser.ts:27 | the first separator of `a + sep + b` cuts exactly after `a` |
| Text.SplitConcat | src/rruleParser.ts:27 | splitting at a separator splits the two halves independently |
| Text.JoinConcat | src/rruleParser.ts:27 | joining two non-empty lists of pieces is joining each with one separator between |
| Text.ToLower | src/rruleParser.ts:33 | lower-casing keeps the length |
| Text.ToLowerIdempotent | src/rruleParser.ts:33 | lower-casing twice is lower-casing once |
| Text.TrimStart | src/parser.rs:23 | the result is a suffix of the line; it does not start with whitespace, and everything removed is whitespace |
| Text.SplitOnce | src/parser.rs:25 | `None` exactly when the separator is absent; otherwise the line is `before + sep + after`, and `before` has no separator |
| Text.SplitOnceAt | src/parser.rs:25 | cutting `a + sep + b` at its first separator, when `a` has none, gives `(a, b)` |
| JsNumber.ParseInt | src/rruleParser.ts:41-85 | `parseInt(value, 10)`: the empty string is NaN; a number needs a digit first or after one sign; it is never positive after `-` and never negative otherwise |
| JsNumber.DigitRun | src/rruleParser.ts:41 | the longest digit prefix: all digits, followed by a non-digit or the end |
| JsNumber.NatDigits | src/rruleParser.ts:41 | the decimal rendering of a natural number is a non-empty digit string |
| JsNumber.NatDigitsValue | src/rruleParser.ts:41 | reading back the digits of a natural number gives the number |
| JsNumber.DigitRunPrefix | src/rruleParser.ts:41 | digits followed by a non-digit form exactly the digit prefix |
| JsNumber.ParseDecimal | src/rruleParser.ts:41 | `parseInt(String(n), 10) == n` for every integer, negative ones included |
| JsNumber.ParseNegative | src/rruleParser.ts:41 | a minus sign before the digits of a number parses to its negation |
| JsNumber.ParseIgnoresSuffix | src/rruleParser.ts:41 | text after the digits is ignored |
| JsNumber.NonNumericIsNaN | src/rruleParser.ts:41 | a token starting with neither a sign nor a digit is NaN |
| RRule.ParseRRule | src/rruleParser.ts:20-103 | the loop over the parts computes `RuleOf(line)`: prefix stripped, split on `;`, each complete part applied in order to `{}` |
| RRule.ParseRecurrenceArray | src/rruleParser.ts:105-107 | one rule per line: the result has as many rules as there are lines (which rule each is: `RulesPerLine`) |
| RRule.RuleOf | src/rruleParser.ts:20-103 | the rule a line parses to: `RRULE:` stripped, split on `;`, every part applied in order to `{}`; its properties are the lemmas below |
| RRule.ApplyPart | src/rruleParser.ts:29-100 | one part: skipped without a non-empty key and value, otherwise the field its lower-cased key names is set (`PartWithoutEqualsSkipped`, `CompletePartSetsField`) |
| RRule.SetField | src/rruleParser.ts:35-99 | the `switch` on the lower-cased key; a key outside the recognised set leaves the rule as it was |
| RRule.RulesPerLine | src/rruleParser.ts:105-107 | one rule per line, the i-th being the parse of the i-th line |
| RRule.ParseRecurrenceArrayConcat | src/rruleParser.ts:105-107 | parsing a list of lines distributes over concatenation |
| RRule.StripPrefix | src/rruleParser.ts:24 | `replace(/^RRULE:/, '')`: one case-sensitive `RRULE:` at the very start is removed, nothing else (see `PrefixStripped`) |
| RRule.ApplyParts | src/rruleParser.ts:29-100 | the `for … of parts` loop: each part applied with `ApplyPart`, first to last, to the rule built so far (see `ApplyPartsConcat`, `LastValueWins`) |
| RRule.PrefixStripped | src/rruleParser.ts:24 | one leading `RRULE:` is removed; a line without it is read whole |
| RRule.EmptyLineIsEmptyRule | src/rruleParser.ts:20-31 | the empty line parses to `{}` |
| RRule.PartWithoutEqualsSkipped | src/rruleParser.ts:30-31 | a part without `=` leaves the rule unchanged |
| RRule.PartWithEmptyKeySkipped | src/rruleParser.ts:30-31 | a part with an empty key leaves the rule unchanged |
| RRule.PartWithEmptyValueSkipped | src/rruleParser.ts:30-31 | a part with an empty value (`FREQ=`, `FREQ==X`) leaves the rule unchanged |
| RRule.CompletePartSetsField | src/rruleParser.ts:30-35 | `key=value` sets the field the lower-cased key names; text after a second `=` is dropped |
| RRule.KeyCaseInsensitive | src/rruleParser.ts:33-35 | keys that differ only in letter case have the same effect |
| RRule.UnknownKeyIgnored | src/rruleParser.ts:35-99 | a key outside the recognised set leaves the rule unchanged |
| RRule.FreqAndWkstLowercased | src/rruleParser.ts:36-90 | `freq` and `wkst` store the lower-cased value, unchecked against the enumeration; `until` stores the value verbatim |
| RRule.NumberListTokenwise | src/rruleParser.ts:52-86 | each integer list holds one `parseInt` result per comma-separated token, in order |
| RRule.NumberTokens | src/rruleParser.ts:40-50 | a written integer reads back as itself, and a token without digits gives NaN, not an error |
| RRule.ByDayTokenwise | src/rruleParser.ts:64-66 | `byday` holds each token lower-cased, one per token, in order |
| RRule.DatesVerbatim | src/rruleParser.ts:92-98 | `rdate`/`exdate` keep the tokens verbatim; rejoining them with `,` gives the value back |
| RRule.LastValueWins | src/rruleParser.ts:29-37 | a later part with the same key, in any letter case, overwrites the earlier one |
| RRule.ApplyPartsConcat | src/rruleParser.ts:29-100 | applying two runs of parts in turn is applying their concatenation |
| RRule.AppendedPart | src/rruleParser.ts:27-100 | appending `;key=value` to a line applies that part after all the line's own parts |
| RRule.OnePartLine | src/rruleParser.ts:20-103 | a line that is one complete part sets that field of `{}` |
| RRule.PrefixedOnePartLine | src/rruleParser.ts:24-37 | `RRULE:KEY=VALUE` reads the part after the prefix |
| Normalization.Normalize | src/caldav/fetchAndSaveEvents.ts:142-156 | `eventInfo`: the title is never empty and there is one parsed rule per recurrence line kept; its other fields are stated by the lemmas below |
| Normalization.NormalizeLegacy | src/calendar.ts:131-144 | the older `eventInfo`: the same non-empty title and one rule per kept line |
| Normalization.TimeOf | src/caldav/fetchAndSaveEvents.ts:147-148 | `start?.dateTime \|\| start?.date \|\| ''`: a missing time object or two falsy fields give `''` (see `StartFallback`, `EndFallback`) |
| Normalization.LegacyTimeOf | src/calendar.ts:136-137 | `start?.dateTime \|\| start?.date` without a final default: undefined without a time object, else the truthy `dateTime`, else `date` as it is (see `LegacyStartUndefined`) |
| Normalization.NeedsMaster | src/caldav/fetchAndSaveEvents.ts:124 | `recurringEventId && !recurrence?.length`: a series instance whose own recurrence is missing or empty (see `OwnLinesKept`) |
| Normalization.OwnLines | src/caldav/fetchAndSaveEvents.ts:122 | `event.recurrence \|\| []`: the item's own lines, `[]` when it has none |
| Normalization.ExtendedOf | src/caldav/fetchAndSaveEvents.ts:131-140 | the `x` object: `private` and `shared` copied from `extendedProperties` when it is there, an empty `x` otherwise (see `ExtendedCopied`) |
| Normalization.OrElse | src/caldav/fetchAndSaveEvents.ts:144-146 | `s \|\| fallback`: the string when it is present and non-empty, the fallback otherwise |
| Normalization.TitleFallback | src/caldav/fetchAndSaveEvents.ts:144-146 | the title is the non-empty summary or `No title`, so never empty; description and location default to `''` |
| Normalization.StartFallback | src/caldav/fetchAndSaveEvents.ts:147 | `start` is a usable `dateTime`, else a usable `date`, else `''`; it is `''` exactly when neither is usable |
| Normalization.EndFallback | src/caldav/fetchAndSaveEvents.ts:148 | the same fallbacks for `end` |
| Normalization.RulesMatchLines | src/caldav/fetchAndSaveEvents.ts:149-153 | the record keeps the resolved lines and one parsed rule per line, with its calendar's id and summary |
| Normalization.ExtendedCopied | src/caldav/fetchAndSaveEvents.ts:132-140 | `x.private`/`x.shared` are present exactly when the item had them, with the same contents |
| Normalization.OwnLinesKept | src/caldav/fetchAndSaveEvents.ts:123-129 | the master event is consulted only for a series instance without lines of its own; an item with lines keeps them |
| Normalization.VariantsAgree | src/calendar.ts:131-144 | the two variants agree on every shared field; where the older one has no usable `start`/`end`, the newer one has `''` |
| Normalization.LegacyStartUndefined | src/calendar.ts:136 | the older variant's `start` is undefined without a start object, and falls back to `date` when `dateTime` is falsy |
| Gateway.CalendarApi.ListCalendars | src/caldav/fetchAndSaveEvents.ts:45-54 | records the calendar-list request and returns the oracle's answer |
| Gateway.CalendarApi.ListEvents | src/caldav/fetchAndSaveEvents.ts:81-99 | records the events request for the calendar and returns the oracle's answer |
| Gateway.CalendarApi.FetchEvent | src/caldav/fetchAndSaveEvents.ts:15-32 | records the master-event request and returns the oracle's answer |
| Gateway.CalendarApi.DeleteEvent | src/caldav/removeEvent.ts:27-40 | records the DELETE request; true exactly when the oracle answers ok |
| Gateway.SnapshotFile.Write | src/caldav/fetchAndSaveEvents.ts:172-173 | counts the write; the file holds the list when the write succeeds and is unchanged otherwise |
| RecurrenceCache.LookupRules | src/caldav/fetchAndSaveEvents.ts:7-38 | the answer is what the updated map holds for the id; an id the map still lacks afterwards (a failed fetch) is answered `[]` after one request for it is logged |
| RecurrenceCache.Cache.GetRecurrenceRules | src/caldav/fetchAndSaveEvents.ts:7-38 | answers and updates the map and the request log exactly as `LookupRules` says |
| RecurrenceCache.HitSendsNothing | src/caldav/fetchAndSaveEvents.ts:8-10 | a cached id is answered from the map, with no request and no change |
| RecurrenceCache.SuccessIsStored | src/caldav/fetchAndSaveEvents.ts:25-31 | an ok answer stores the master's lines (`[]` when it has none), answers them, and sends one request |
| RecurrenceCache.FailureIsNotStored | src/caldav/fetchAndSaveEvents.ts:33-37 | a failed or throwing fetch answers `[]` and stores nothing |
| RecurrenceCache.LookupGrows | src/caldav/fetchAndSaveEvents.ts:7-38 | no entry is changed or removed, only `id` can be added, and at most one request is sent |
| RecurrenceCache.RetryUntilStored | src/caldav/fetchAndSaveEvents.ts:25-37 | after a failure the same id is fetched again; after a success it is answered without a request |
| Sync.ResolveLines | src/caldav/fetchAndSaveEvents.ts:122-129 | the lines of one item: its own lines, or the master's through `LookupRules` when `NeedsMaster` holds (see `ItemLinesOwn`, `EventsLoopFetchesOnly`) |
| Sync.EventsLoop | src/caldav/fetchAndSaveEvents.ts:122-160 | the inner loop: for each item in order, resolve its lines, then append its normalised record (see `EventsLoopRecords`) |
| Sync.CalendarStep | src/caldav/fetchAndSaveEvents.ts:80-163 | one calendar: one events request logged; an ok answer runs the inner loop over `items \|\| []`, a failed or throwing one adds nothing and the loop continues (see `FailedCalendarSkipped`, `AnsweredCalendarRecords`, `CalendarStepRequests`) |
| Sync.CalendarsLoop | src/caldav/fetchAndSaveEvents.ts:77-164 | the outer loop: `CalendarStep` for each calendar in list order (see `CalendarsLoopConcat`, `CalendarsLoopListings`, `CalendarsLoopCache`) |
| Sync.SyncCalendars | src/caldav/fetchAndSaveEvents.ts:77-164 | the nested loops with `continue`/`catch` produce the output, cache and log of `CalendarsLoop` |
| Sync.ItemLines | src/caldav/fetchAndSaveEvents.ts:122-129 | one list of resolved lines per item |
| Sync.ItemLinesOwn | src/caldav/fetchAndSaveEvents.ts:123-129 | an item that needs no master keeps its own lines |
| Sync.EventsLoopRecords | src/caldav/fetchAndSaveEvents.ts:122-160 | the inner loop appends exactly one record per item, in item order, and moves nothing already in the output |
| Sync.FailedCalendarSkipped | src/caldav/fetchAndSaveEvents.ts:96-99 | a calendar whose events request is not ok or throws adds no record and stores nothing |
| Sync.AnsweredCalendarRecords | src/caldav/fetchAndSaveEvents.ts:101-160 | an answered calendar adds one record per returned item (none when `items` is missing), in response order |
| Sync.CalendarsLoopConcat | src/caldav/fetchAndSaveEvents.ts:77-164 | running the calendars of `a`, then those of `b`, is running `a + b` |
| Sync.CalendarsLoopAppends | src/caldav/fetchAndSaveEvents.ts:77-164 | the loops only append to the output |
| Sync.ListedCalendarsAppend | src/caldav/fetchAndSaveEvents.ts:81-94 | the calendars requested in a log distribute over concatenation |
| Sync.EventsLoopFetchesOnly | src/caldav/fetchAndSaveEvents.ts:122-129 | the inner loop sends only master-event requests, each for an id not cached when it began |
| Sync.CalendarStepRequests | src/caldav/fetchAndSaveEvents.ts:80-163 | one turn adds exactly one events request, for its calendar, extends the log, fetches master events only for uncached ids, and keeps every cache entry |
| Sync.CalendarsLoopLogGrows | src/caldav/fetchAndSaveEvents.ts:77-164 | a run's requests extend the requests sent before it |
| Sync.CalendarStepListing | src/caldav/fetchAndSaveEvents.ts:81-94 | one turn adds exactly one events request, for its calendar |
| Sync.CalendarsLoopListings | src/caldav/fetchAndSaveEvents.ts:77-94 | every calendar of the list gets exactly one events request, in list order |
| Sync.CalendarsLoopCache | src/caldav/fetchAndSaveEvents.ts:77-164 | master events are fetched only for ids the cache lacked when the run began, and no entry is changed or removed |
| Sync.NoListingsInFetches | src/caldav/fetchAndSaveEvents.ts:122-129 | a run of master-event fetches holds no events request |
| CaldavContext.Context.Get | src/caldav/caldavContext.ts:44-46 | `get(key)` returns the field named by `key` |
| CaldavContext.Context.Set | src/caldav/caldavContext.ts:47-49 | `set` replaces the named field and no other |
| CaldavContext.Context.GetUser | src/caldav/caldavContext.ts:50-55 | fails with `User not initialized` exactly when there is no user, and returns the user otherwise |
| CaldavContext.Context.GetCalendars | src/caldav/caldavContext.ts:56-58 | the same as `get('calendars')` |
| CaldavContext.Context.GetEvents | src/caldav/caldavContext.ts:59-61 | the same as `get('events')` |
| CaldavContext.Context.IsReady | src/caldav/caldavContext.ts:62-64 | the same as `get('isInitialized')` |
| FetchAndSave.FetchAndSaveEvents | src/caldav/fetchAndSaveEvents.ts:40-178 | with no user, nothing is sent or changed; a failed calendar list sends only that request; otherwise the calendars and the collected events go to the context, the events to the file, and are returned |
| FetchAndSave.CollectedRun | src/caldav/fetchAndSaveEvents.ts:77-177 | a run sends each calendar's events request once, in list order, extends the log, fetches master events only for ids not cached at the start, and keeps the cache entries it started with |
| FetchAndSave.CacheSurvivesRuns | src/caldav/fetchAndSaveEvents.ts:5-10 | an id stored by one run is not fetched again by a later run with the same cache |
| LegacyCalendar.FetchEvents | src/calendar.ts:48-163 | a failed calendar list sends only that request; otherwise the collected events are written to the file and returned |
| LegacyCalendar.VariantsRunAlike | src/calendar.ts:81-152 | on the same answers and cache, the two synchronisations send the same requests, leave the same cache, and produce lists of equal length that agree field by field |
| LegacyCalendar.EventsLoopTrace | src/calendar.ts:122-148 | the state an inner loop leaves does not depend on the normaliser |
| LegacyCalendar.CalendarsLoopsAlike | src/calendar.ts:81-152 | the outer loop run with any two normalisers that make alike records (equal on every shared field, `start`/`end` equal where the older record has a usable one and `''` otherwise) sends the same requests, leaves the same cache and yields equally long lists of alike records |
| LegacyCalendar.EventsLoopAlike | src/calendar.ts:122-148 | the same for the inner loop over one calendar's items |
| LegacyCalendar.NormalizersAlike | src/calendar.ts:131-144 | the two normalisers make alike records of every item |
| RemoveEvent.IsLotus | src/caldav/removeEvent.ts:55-57 | `event.x?.private?.isLotus === 'true'`: a private extended property `isLotus` with the exact text `true` |
| RemoveEvent.LotusEvents | src/caldav/removeEvent.ts:55-57 | the selection holds exactly the context's events marked `isLotus: 'true'` |
| RemoveEvent.LotusEventsConcat | src/caldav/removeEvent.ts:55-57 | the selection keeps the context's order |
| RemoveEvent.LotusEventsAllOrNone | src/caldav/removeEvent.ts:55-57 | a list of Lotus events is selected whole, and a list without any selects nothing |
| RemoveEvent.Ids | src/caldav/removeEvent.ts:62-65 | the ids of the selected events, in order |
| RemoveEvent.Deletes | src/caldav/removeEvent.ts:62-65 | one DELETE request per id, the k-th deleting the k-th id |
| RemoveEvent.Succeeded | src/caldav/removeEvent.ts:62-65 | the number of deletions that succeed before the first failure is at most the number of ids |
| RemoveEvent.SucceededIsFirstFailure | src/caldav/removeEvent.ts:62-65 | every deletion before that count succeeds, and the one at it fails |
| RemoveEvent.RemoveEvent | src/caldav/removeEvent.ts:22-47 | without a user it fails before any request; otherwise it sends the DELETE and succeeds exactly when the response is ok, failing with the id otherwise |
| RemoveEvent.RemovalStopsAtFirstFailure | src/caldav/removeEvent.ts:62-65 | with a user, the removals succeed exactly when every deletion does; the requests are the deletions up to and including the first failure, whose id the error names |
| RemoveEvent.RemovalDeletesPrefix | src/caldav/removeEvent.ts:62-65 | the requests sent are deletions of a prefix of the ids, in order |
| RemoveEvent.OnlyLotusEventsDeleted | src/caldav/removeEvent.ts:49-65 | the k-th request deletes the k-th selected event, which is in the context and marked `isLotus` |
| RemoveEvent.Removal | src/caldav/removeEvent.ts:22-65 | the `for … of` loop of `removeEvent` calls: each checks for a user, then sends one DELETE; the first missing user or failed deletion ends the loop with its error (see `RemovalStopsAtFirstFailure`, `RemovalDeletesPrefix`) |
| RemoveEvent.RemoveEach | src/caldav/removeEvent.ts:62-65 | the loop's result and requests are those of `Removal` |
| RemoveEvent.RemoveAllLotusEvents | src/caldav/removeEvent.ts:49-68 | the removal loop runs over the ids of the context's Lotus events, and the context is only read |
| Template.Render | src/oauthServer.ts:61-65 | `renderTemplate`: each `{{word}}` match, left to right, is replaced by its non-empty value or kept; stated by `Substitution` and the lemmas below |
| Template.Replacement | src/oauthServer.ts:63 | `data[key] \|\| match`: the value when the key has a non-empty one, otherwise the placeholder text itself (see `Substitution`) |
| Template.WordRun | src/oauthServer.ts:62 | the longest run of word characters at the start |
| Template.PlaceholderAt | src/oauthServer.ts:62 | a match is a non-empty word key, and the text starts with `{{key}}` |
| Template.PlaceholderFound | src/oauthServer.ts:62 | `{{word}}` is a match whatever follows it |
| Template.WordRunOfWord | src/oauthServer.ts:62 | the run at the start of `key + non-word` is exactly `key` |
| Template.Substitution | src/oauthServer.ts:62-64 | a placeholder with a non-empty value becomes the value; one without stays verbatim; the rest is rendered on its own |
| Template.InsertedValueNotRescanned | src/oauthServer.ts:62-64 | for every word key with a non-empty value, the placeholder renders to exactly that value: what was inserted is never scanned again |
| Template.InsertedPlaceholderKept | src/oauthServer.ts:62-64 | example: `{{a}}` with `a` set to `{{b}}` renders as `{{b}}` although `b` has a value |
| Template.NoPlaceholderIdentity | src/oauthServer.ts:62 | text with no match anywhere is returned unchanged |
| Template.EmptyDataIdentity | src/oauthServer.ts:63 | with no values, every template comes back unchanged |
| Template.SpacedKeyNotSubstituted | src/oauthServer.ts:62 | `{{ name }}` is never substituted |
| ICalendar.StripCr | src/parser.rs:14 | a line ending in `\r` loses exactly that `\r`; any other line is kept as it is |
| ICalendar.Lines | src/parser.rs:14 | the text is cut at each `\n` into at least one line |
| ICalendar.LinesOfJoin | src/parser.rs:14 | lines joined with `\n`, none containing `\n` or ending in `\r`, are cut back into the same lines |
| ICalendar.LinesOfCrlfJoin | src/parser.rs:14 | text with `\r\n` line endings is cut back into its lines, each without its `\r` |
| ICalendar.Params | src/parser.rs:26-36 | the parameter map: each `k=v` part cut at its first `=` stored in order, a later key replacing an earlier one, parts without `=` dropped (see `ReadParams`, `ParameterWithoutEqualsDropped`) |
| ICalendar.PropertyValue | src/parser.rs:64-77 | the stored property: with `value` added, a one-key map gives the plain string, anything larger the map (see `PlainIffNoParameters`, `SingleKey`) |
| ICalendar.PlainIffNoParameters | src/parser.rs:64-77 | a property is a plain string exactly when it has no parameter other than `value`; otherwise it is the parameter map with `value` |
| ICalendar.SingleKey | src/parser.rs:65 | adding `value` leaves one key exactly when `value` was the only possible key |
| ICalendar.Step | src/parser.rs:19-77 | one line of the loop: the stack of open components grows or shrinks by at most one |
| ICalendar.Run | src/parser.rs:18-82 | the loop over the lines, one `Step` per line; stated by `RunConcat`, `RunDepth` and the lemmas below |
| ICalendar.RunDepth | src/parser.rs:18-63 | over any run of lines the stack of open components grows or shrinks by at most the number of lines |
| ICalendar.Document | src/parser.rs:13-88 | `parse`: the map current after reading every line, as a `Mapping` (see `ComponentAttached`, `UnclosedBeginDropsEnclosing`) |
| ICalendar.StepContentLine | src/parser.rs:23-25 | a line whose name is not blank is cut at its first `:` |
| ICalendar.ApplyName | src/parser.rs:26-27 | a name without `;` has no parameters |
| ICalendar.RunConcat | src/parser.rs:18 | reading `a` and then `b` is reading `a + b` |
| ICalendar.ReadParams | src/parser.rs:30-34 | the loop over the parameters builds `Params`, each `k=v` in order |
| ICalendar.Parse | src/parser.rs:13-89 | the line loop returns the document of `Run` over the lines |
| ICalendar.SkippedLines | src/parser.rs:19-25 | whitespace-only lines and lines without `:` change nothing |
| ICalendar.BlankTrimmed | src/parser.rs:19-23 | a line is blank exactly when it is blank after `trim_start` |
| ICalendar.LeadingWhitespaceIgnored | src/parser.rs:23 | a line reads as it does without its leading whitespace |
| ICalendar.PlainProperty | src/parser.rs:64-67 | `name:value` stores the value as a string under `name`, everything after the first `:` included |
| ICalendar.OneParameter | src/parser.rs:26-27 | `name;param` splits into the name and the parameter |
| ICalendar.PropertyWithParameter | src/parser.rs:26-77 | `name;k=v:value` stores a map of `k` and `value` |
| ICalendar.ParameterValue | src/parser.rs:30-77 | one parameter `k=v` with `k` other than `value` makes the property the map of `k` and `value` |
| ICalendar.ParameterWithoutEqualsDropped | src/parser.rs:30-34 | a parameter without `=` is dropped, so the property stays a string |
| ICalendar.LastPropertyWins | src/parser.rs:64-77 | a property named twice keeps the later value |
| ICalendar.Dispatch | src/parser.rs:38-79 | the `match main_key`: `BEGIN` pushes and starts an empty map, `END` closes, any other name stores its property in the current map (see `BeginOpens`, `EndCloses`, `PlainProperty`) |
| ICalendar.Close | src/parser.rs:43-63 | `END`: pop the parent, or a new empty one when nothing is open (`unwrap_or_default`), attach the current map under the `END` value, and continue in the parent (see `EndCloses`, `EndWithoutBegin`) |
| ICalendar.Attach | src/parser.rs:52-61 | a new key holds the entry; a sequence gets the entry appended; any other value becomes the sequence of it and the entry (see `RepeatedComponents`) |
| ICalendar.BeginOpens | src/parser.rs:39-42 | `BEGIN:` pushes the current map and starts an empty one |
| ICalendar.EndCloses | src/parser.rs:43-63 | `END:key` closes the current map into the enclosing one |
| ICalendar.EndWithoutBegin | src/parser.rs:44 | `END` with nothing open closes into a new, empty parent |
| ICalendar.ComponentAttached | src/parser.rs:39-63 | a balanced component is stored under its `END` key in the enclosing map |
| ICalendar.RepeatedComponents | src/parser.rs:52-61 | components of the same name are collected into a sequence, in closing order |
| ICalendar.UnclosedBeginDropsEnclosing | src/parser.rs:83-88 | only the current map is returned, so content before an unclosed `BEGIN` is lost |
| Utf8.DecodeChar | src/events.rs:49-59 | the first character of well-formed UTF-8 and its byte length, rejecting stray continuation bytes, overlong forms, surrogates and values above U+10FFFF (see `Rejected`, `EncodeDecodeChar`) |
| Utf8.Encode | src/events.rs:49-59 | the UTF-8 encoding of a string, character by character; `from_utf8` accepts exactly these byte strings (see `DecodeEncode`, `EncodeDecode`) |
| Utf8.EncodeChar | src/events.rs:49 | a scalar value takes one to four bytes |
| Utf8.Decode | src/events.rs:49-59 | `std::str::from_utf8`: a decoding never has more characters than there are bytes; `DecodeEncode`/`EncodeDecode` make it the inverse of encoding |
| Utf8.DecodeEncodeChar | src/events.rs:49 | decoding a character's encoding gives the character and its length back |
| Utf8.EncodeDecodeChar | src/events.rs:49 | a well-formed sequence is the encoding of what it decodes to, so there is no second spelling |
| Utf8.DecodeEncode | src/events.rs:49 | every string survives encoding and decoding |
| Utf8.EncodeDecode | src/events.rs:49 | bytes that decode are the encoding of their decoding |
| Utf8.AsciiDecodes | src/events.rs:49 | ASCII bytes decode to the same characters |
| Utf8.Rejected | src/events.rs:49 | a lone continuation byte, an encoded surrogate, an overlong form and a value above U+10FFFF are rejected |
| CaldavEvents.FieldOf | src/events.rs:47-61 | `D:href` and `D:getetag` match by exact name, calendar data by the `calendar-data` suffix, and `D:response` is no field |
| CaldavEvents.Captured | src/events.rs:48-60 | text that decodes is the new value, text that does not is an error, anything else leaves the field alone |
| CaldavEvents.Reader.ReadEvent | src/events.rs:32 | the token at the reader's position; at the end, `Eof` without moving |
| CaldavEvents.ReadField | src/events.rs:48-50 | the read after a field's start tag is `Captured` of the next token |
| CaldavEvents.ParseCaldavResponse | src/events.rs:22-70 | the reader loop returns what `Scan` gives from cleared fields and no events |
| CaldavEvents.Scan | src/events.rs:31-65 | the reader loop over the tokens, with the captured fields and the records so far; stated by `ScanAppends`, `OneResponse` and `ResponsesScanned` |
| CaldavEvents.ScanAppends | src/events.rs:38-46 | scanning only appends, and every appended record has a non-empty href |
| CaldavEvents.ResponseStartForgets | src/events.rs:33-37 | a `D:response` start clears the fields, so nothing captured before it leaks in |
| CaldavEvents.HreflessResponseDropped | src/events.rs:38-46 | a response without an href yields no record |
| CaldavEvents.ResponseEndRecords | src/events.rs:38-46 | the end of a response with an href appends the record of its captured href, etag and data |
| CaldavEvents.FieldNeedsText | src/events.rs:47-61 | a field tag followed by anything but text leaves the field alone and consumes that token, even a response end |
| CaldavEvents.InvalidTextFails | src/events.rs:47-61 | ill-formed UTF-8 in a captured field is an error, whatever follows |
| CaldavEvents.StopsAtEof | src/events.rs:62 | nothing after `Eof` is read |
| CaldavEvents.DataTagAnyPrefix | src/events.rs:57 | calendar data is recognised under any namespace prefix |
| CaldavEvents.ScanField | src/events.rs:47-61 | a property element holding well-formed text sets its field to that text |
| CaldavEvents.OneResponse | src/events.rs:31-65 | a response with an href yields exactly its record |
| CaldavEvents.ResponsesScanned | src/events.rs:31-69 | a reply built from records that all have an href scans back to exactly those records, in document order |
| CaldavEvents.Sampled | src/events.rs:85 | the `i % 100 == 0` test of the conversion loop |
| CaldavEvents.ConvertToStandardized | src/events.rs:79-93 | `[]` for no records, otherwise exactly the parsed document of the first record |

## Left out

- Network, JSON decoding, `Bun.file`, `console` logging, the `println!` of the number of parsed events (src/events.rs:67) and `encodeURIComponent` are replaced by the `Gateway` oracles and the snapshot file. The text of error messages is not modelled, only which error occurs.
- The synchronisation window (last year to two years ahead) and `toISOString`: they need the clock and only shape the URL of the events request, which the model records by calendar id.
- `Text.ToLower`, `Text.IsSpace`, `Text.TrimStart`: these are ASCII only. They do not model Unicode case mapping or Unicode whitespace beyond the ASCII set with `\v` and `\f`.
- `JsNumber.ParseInt`: does not model JavaScript's leading-whitespace skipping, `-0`, or floating-point precision for very long digit runs. It reads an optional sign and the longest digit prefix, and gives NaN when there is none.
- The `getUser` call inside `getRecurrenceRules` (src/caldav/fetchAndSaveEvents.ts:12) is not modelled separately. A run has already obtained a user, and nothing during a run clears it.
- Concurrent changes to the context during an `await` are not modelled: calls run strictly in sequence.
- `renderTemplate` data is a map from strings to strings. Keys inherited from JavaScript's object prototype (such as `constructor`) are not modelled.
- `ICalendar.Lines`: `str::lines` also drops a final empty line, and a lone `\r` before the end of the text is kept in both. The model cuts at every `\n` and strips one `\r` from each line but the last. The extra final piece is blank and skipped, so the parse is the same.
- `ICalendar.Parse`: the key order of Rust's `HashMap`/YAML mappings is not modelled. Maps are Dafny maps.
- The XML tokenizer (quick_xml) is a foreign library: `parse_caldav_response` takes the sequence of reader events as input. Entity unescaping is out of scope, since the code uses the raw text bytes.
- `CaldavEvents.ParseCaldavResponse`: the input of the original is a `&str`. Its text tokens are therefore always valid UTF-8, and the error path is unreachable there. The model takes arbitrary bytes and keeps the error path as the code writes it.
- `CaldavEvents.ConvertToStandardized`: returns the list directly. The original wraps it in a `Result` that is never an error.
- `save_events` and `save_standardized_events` (YAML serialisation to files) are not part of this model.
- The rest of src/oauthServer.ts (routes, token exchange, sessions), src/caldav/google.rs, src/session.rs, src/caldav/createEvent.ts, the UI components and the wiring files are not part of this model.
