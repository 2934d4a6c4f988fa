/**
 * `getRecurrenceRules`: the module-level memo of master-event recurrence lines.
 * A cached id is answered from the map; otherwise the master event is fetched, and
 * only an ok answer is stored (an empty list included). A failed or throwing fetch
 * answers `[]` and leaves the map alone, so the next call for that id fetches again.
 */
module RecurrenceCache {
  import opened Wrappers
  import opened Gateway

  /** The state a lookup reads and changes: the memo map and the requests sent so far. */
  datatype Trace = Trace(entries: map<string, seq<string>>, log: seq<Request>)

  /** The lines a lookup answers and the state after it. */
  datatype Lookup = Lookup(lines: seq<string>, trace: Trace)

  /** What `getRecurrenceRules(id)` answers from state `t`. */
  function LookupRules(o: Oracles, t: Trace, id: string): (r: Lookup)
    ensures id in r.trace.entries ==> r.lines == r.trace.entries[id]
    ensures id !in r.trace.entries ==> r.lines == [] && r.trace.log == t.log + [FetchEvent(id)]
  {
    if id in t.entries then Lookup(t.entries[id], t)
    else
      var log := t.log + [FetchEvent(id)];
      match o.master(id, |t.log|)
      case Response(recurrence) =>
        var rules := recurrence.GetOr([]);
        Lookup(rules, Trace(t.entries[id := rules], log))
      case _ => Lookup([], Trace(t.entries, log))
  }

  /** The memo map, one per module that declares it; it outlives every synchronisation run. */
  class Cache {
    var entries: map<string, seq<string>>

    constructor ()
      ensures entries == map[]
    {
      entries := map[];
    }

    method GetRecurrenceRules(api: CalendarApi, id: string) returns (rules: seq<string>)
      modifies this, api
      ensures Lookup(rules, Trace(entries, api.log))
           == LookupRules(api.oracles, Trace(old(entries), old(api.log)), id)
    {
      if id in entries {
        return entries[id];
      }
      var reply := api.FetchEvent(id);
      if reply.Response? {
        rules := reply.body.GetOr([]);
        entries := entries[id := rules];
        return rules;
      }
      return [];
    }
  }

  // ---------------------------------------------------------------------------
  // Properties of one lookup

  /** A cached id is answered from the map, with no request and no change. */
  lemma HitSendsNothing(o: Oracles, t: Trace, id: string)
    requires id in t.entries
    ensures LookupRules(o, t, id).lines == t.entries[id]
    ensures LookupRules(o, t, id).trace == t
  {
  }

  /** An ok answer stores the master's lines, or `[]` when it has none, and answers them. */
  lemma SuccessIsStored(o: Oracles, t: Trace, id: string)
    requires id !in t.entries && o.master(id, |t.log|).Response?
    ensures var r := LookupRules(o, t, id);
      && r.lines == o.master(id, |t.log|).body.GetOr([])
      && r.trace.entries == t.entries[id := r.lines]
      && r.trace.log == t.log + [FetchEvent(id)]
  {
  }

  /** A not-ok or thrown answer gives `[]` and stores nothing. */
  lemma FailureIsNotStored(o: Oracles, t: Trace, id: string)
    requires id !in t.entries && !o.master(id, |t.log|).Response?
    ensures var r := LookupRules(o, t, id);
      && r.lines == []
      && r.trace.entries == t.entries
      && id !in r.trace.entries
      && r.trace.log == t.log + [FetchEvent(id)]
  {
  }

  /** The map only grows: no entry is ever changed or removed, and at most one request, for `id`, is sent. */
  lemma LookupGrows(o: Oracles, t: Trace, id: string)
    ensures var r := LookupRules(o, t, id);
      && (forall k :: k in t.entries ==> k in r.trace.entries && r.trace.entries[k] == t.entries[k])
      && (forall k :: k in r.trace.entries && k !in t.entries ==> k == id)
      && (r.trace.log == t.log || r.trace.log == t.log + [FetchEvent(id)])
  {
  }

  /**
   * After a failed lookup the same id is fetched again; once a lookup succeeded, every
   * later lookup of that id answers the same lines without a request.
   */
  lemma RetryUntilStored(o: Oracles, t: Trace, id: string)
    requires id !in t.entries
    ensures var first := LookupRules(o, t, id);
      var second := LookupRules(o, first.trace, id);
      && (!o.master(id, |t.log|).Response? ==>
            second.trace.log == t.log + [FetchEvent(id), FetchEvent(id)])
      && (o.master(id, |t.log|).Response? ==>
            second.lines == first.lines && second.trace == first.trace)
  {
  }
}
