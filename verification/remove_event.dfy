/**
 * `removeAllLotusEvents`: select the context's events whose `x.private.isLotus` is
 * the string `'true'`, then delete them one at a time in that order; the first
 * deletion that fails propagates its error and no later deletion is attempted.
 * The context's event list is read, never changed.
 */
module RemoveEvent {
  import opened Wrappers
  import opened Records
  import opened Gateway
  import opened CaldavContext

  /** `event.x?.private?.isLotus === 'true'`. */
  predicate IsLotus(e: Event)
  {
    e.x.private.Some? && "isLotus" in e.x.private.value && e.x.private.value["isLotus"] == "true"
  }

  /** `events.filter(IsLotus)`. */
  function LotusEvents(events: seq<Event>): (lotus: seq<Event>)
    ensures |lotus| <= |events|
    ensures forall e :: e in lotus <==> e in events && IsLotus(e)
  {
    if events == [] then []
    else if IsLotus(events[0]) then [events[0]] + LotusEvents(events[1..])
    else LotusEvents(events[1..])
  }

  /** The selection keeps the context's order: selecting from `a + b` selects from `a`, then from `b`. */
  lemma {:induction false} LotusEventsConcat(a: seq<Event>, b: seq<Event>)
    ensures LotusEvents(a + b) == LotusEvents(a) + LotusEvents(b)
    decreases |a|
  {
    if a == [] {
      assert a + b == b;
    } else {
      assert (a + b)[1..] == a[1..] + b;
      LotusEventsConcat(a[1..], b);
    }
  }

  /** A list of Lotus events is selected whole, and one without any selects nothing. */
  lemma {:induction false} LotusEventsAllOrNone(events: seq<Event>)
    ensures (forall i :: 0 <= i < |events| ==> IsLotus(events[i])) ==> LotusEvents(events) == events
    ensures (forall i :: 0 <= i < |events| ==> !IsLotus(events[i])) ==> LotusEvents(events) == []
    decreases |events|
  {
    if events != [] {
      LotusEventsAllOrNone(events[1..]);
      assert [events[0]] + events[1..] == events;
    }
  }

  /** The ids of the selected events, in order. */
  function Ids(events: seq<Event>): (ids: seq<string>)
    ensures |ids| == |events|
    ensures forall i :: 0 <= i < |events| ==> ids[i] == events[i].id
  {
    if events == [] then [] else [events[0].id] + Ids(events[1..])
  }

  /** The DELETE requests for a list of ids, in order. */
  function Deletes(ids: seq<string>): (requests: seq<Request>)
    ensures |requests| == |ids|
    ensures forall k :: 0 <= k < |ids| ==> requests[k] == DeleteEvent(ids[k])
  {
    if ids == [] then [] else [DeleteEvent(ids[0])] + Deletes(ids[1..])
  }

  /**
   * How many deletions succeed, one after the other, before the first that fails,
   * when the first one is the request numbered `sent`.
   */
  function Succeeded(o: Oracles, sent: nat, ids: seq<string>): (k: nat)
    ensures k <= |ids|
    decreases |ids|
  {
    if ids == [] || !o.delete(ids[0], sent) then 0 else 1 + Succeeded(o, sent + 1, ids[1..])
  }

  /** `Succeeded` is the index of the first failing deletion: all before it succeed, and it fails. */
  lemma {:induction false} SucceededIsFirstFailure(o: Oracles, sent: nat, ids: seq<string>)
    ensures var k := Succeeded(o, sent, ids);
      && (forall j :: 0 <= j < k ==> o.delete(ids[j], sent + j))
      && (k < |ids| ==> !o.delete(ids[k], sent + k))
    decreases |ids|
  {
    if ids != [] && o.delete(ids[0], sent) {
      SucceededIsFirstFailure(o, sent + 1, ids[1..]);
      var k := Succeeded(o, sent, ids);
      forall j | 0 <= j < k
        ensures o.delete(ids[j], sent + j)
      {
        if j > 0 {
          assert ids[j] == ids[1..][j - 1];
        }
      }
    }
  }

  /**
   * `removeEvent(id)`: `getUser` first, then the DELETE; a response that is not ok,
   * or a thrown fetch, fails with the id.
   */
  method RemoveEvent(ctx: Context, api: CalendarApi, id: string) returns (r: Result<(), Failure>)
    modifies api
    ensures ctx.user.None? ==> r == Err(UserNotInitialized) && api.log == old(api.log)
    ensures ctx.user.Some? ==>
      && api.log == old(api.log) + [DeleteEvent(id)]
      && (r.Ok? <==> api.oracles.delete(id, |old(api.log)|))
      && (r.Err? ==> r.error == RemovalFailed(id))
  {
    var user := ctx.GetUser();
    if user.Err? {
      return Err(user.error);
    }
    var ok := api.DeleteEvent(id);
    if !ok {
      return Err(RemovalFailed(id));
    }
    return Ok(());
  }

  /** What a sequence of removals answers, and the requests it sends. */
  datatype Outcome = Outcome(result: Result<(), Failure>, sent: seq<Request>)

  /**
   * The removal loop over `ids`, the first request being numbered `sent`: each
   * `removeEvent` first checks for a user, then deletes; the first failure ends it.
   */
  function Removal(o: Oracles, signedIn: bool, sent: nat, ids: seq<string>): Outcome
    decreases |ids|
  {
    if ids == [] then Outcome(Ok(()), [])
    else if !signedIn then Outcome(Err(UserNotInitialized), [])
    else if !o.delete(ids[0], sent) then Outcome(Err(RemovalFailed(ids[0])), [DeleteEvent(ids[0])])
    else
      var rest := Removal(o, signedIn, sent + 1, ids[1..]);
      Outcome(rest.result, [DeleteEvent(ids[0])] + rest.sent)
  }

  /**
   * With a user, the removals succeed exactly when every deletion does; the requests
   * are the deletions up to and including the first that fails, in order, and the
   * error names that one. Without a user nothing is sent, and only an empty
   * selection succeeds.
   */
  lemma {:induction false} RemovalStopsAtFirstFailure(o: Oracles, signedIn: bool, sent: nat, ids: seq<string>)
    ensures var out := Removal(o, signedIn, sent, ids);
      var k := Succeeded(o, sent, ids);
      && (!signedIn ==> out.sent == [] && (out.result.Ok? <==> ids == [])
                        && (out.result.Err? ==> out.result.error == UserNotInitialized))
      && (signedIn ==> (out.result.Ok? <==> k == |ids|))
      && (signedIn && k == |ids| ==> out.sent == Deletes(ids))
      && (signedIn && k < |ids| ==> out.sent == Deletes(ids[..k + 1]) && out.result == Err(RemovalFailed(ids[k])))
    decreases |ids|
  {
    if signedIn && ids != [] && o.delete(ids[0], sent) {
      RemovalStopsAtFirstFailure(o, signedIn, sent + 1, ids[1..]);
      var k := Succeeded(o, sent, ids);
      if k < |ids| {
        assert ids[..k + 1] == [ids[0]] + ids[1..][..k];
        assert Deletes(ids[..k + 1]) == [DeleteEvent(ids[0])] + Deletes(ids[1..][..k]);
      }
    } else if signedIn && ids != [] {
      assert ids[..1] == [ids[0]];
    }
  }

  /** The requests a removal sends are deletions of a prefix of `ids`, in order. */
  lemma {:induction false} RemovalDeletesPrefix(o: Oracles, signedIn: bool, sent: nat, ids: seq<string>)
    ensures var out := Removal(o, signedIn, sent, ids);
      |out.sent| <= |ids| && forall k :: 0 <= k < |out.sent| ==> out.sent[k] == DeleteEvent(ids[k])
    decreases |ids|
  {
    if signedIn && ids != [] && o.delete(ids[0], sent) {
      RemovalDeletesPrefix(o, signedIn, sent + 1, ids[1..]);
    }
  }

  /**
   * `removeAllLotusEvents` deletes Lotus events of the context and nothing else: the
   * k-th request is the deletion of the k-th selected event, which is in the context
   * and is marked `isLotus`.
   */
  lemma OnlyLotusEventsDeleted(o: Oracles, signedIn: bool, sent: nat, events: seq<Event>)
    ensures var lotus := LotusEvents(events);
      var out := Removal(o, signedIn, sent, Ids(lotus));
      forall k :: 0 <= k < |out.sent| ==>
        k < |lotus| && out.sent[k] == DeleteEvent(lotus[k].id) && lotus[k] in events && IsLotus(lotus[k])
  {
    RemovalDeletesPrefix(o, signedIn, sent, Ids(LotusEvents(events)));
  }

  /** The requests for `ids`, then those for `more`, are the requests for `ids + more`. */
  lemma {:induction false} DeletesConcat(ids: seq<string>, more: seq<string>)
    ensures Deletes(ids + more) == Deletes(ids) + Deletes(more)
    decreases |ids|
  {
    if ids != [] {
      assert (ids + more)[0] == ids[0] && (ids + more)[1..] == ids[1..] + more;
      DeletesConcat(ids[1..], more);
      assert Deletes(ids + more) == [DeleteEvent(ids[0])] + Deletes(ids[1..] + more);
    } else {
      assert ids + more == more;
    }
  }

  /** The requests for one more id end with its deletion. */
  lemma DeletesAppend(ids: seq<string>, i: nat)
    requires i < |ids|
    ensures Deletes(ids[..i + 1]) == Deletes(ids[..i]) + [DeleteEvent(ids[i])]
  {
    assert ids[..i + 1] == ids[..i] + [ids[i]];
    DeletesConcat(ids[..i], [ids[i]]);
  }

  /** The outcome `out` of later removals, preceded by the requests `sent` of earlier successful ones. */
  function After(sent: seq<Request>, out: Outcome): Outcome
  {
    Outcome(out.result, sent + out.sent)
  }

  /** The loop has handled `ids[..i]`, all successfully: what remains is the removal of `ids[i..]`. */
  predicate Resumes(o: Oracles, signedIn: bool, start: nat, ids: seq<string>, i: nat)
    requires i <= |ids|
  {
    Removal(o, signedIn, start, ids) == After(Deletes(ids[..i]), Removal(o, signedIn, start + i, ids[i..]))
  }

  /** One more successful deletion, recorded after `log`, moves the loop's split point by one. */
  lemma RemovalStep(o: Oracles, signedIn: bool, start: nat, ids: seq<string>, i: nat,
                    log0: seq<Request>, log: seq<Request>)
    requires i < |ids| && signedIn && o.delete(ids[i], start + i)
    requires log == log0 + Deletes(ids[..i]) && Resumes(o, signedIn, start, ids, i)
    ensures log + [DeleteEvent(ids[i])] == log0 + Deletes(ids[..i + 1])
    ensures Resumes(o, signedIn, start, ids, i + 1)
  {
    assert ids[i..][0] == ids[i] && ids[i..][1..] == ids[i + 1..];
    DeletesAppend(ids, i);
  }

  /** A removal that fails at the split point is the outcome of the whole loop. */
  lemma RemovalStop(o: Oracles, signedIn: bool, start: nat, ids: seq<string>, i: nat,
                    log0: seq<Request>, log: seq<Request>)
    requires i < |ids| && (!signedIn || !o.delete(ids[i], start + i))
    requires log == log0 + Deletes(ids[..i]) && Resumes(o, signedIn, start, ids, i)
    ensures !signedIn ==>
      Err(UserNotInitialized) == Removal(o, signedIn, start, ids).result
      && log == log0 + Removal(o, signedIn, start, ids).sent
    ensures signedIn ==>
      Err(RemovalFailed(ids[i])) == Removal(o, signedIn, start, ids).result
      && log + [DeleteEvent(ids[i])] == log0 + Removal(o, signedIn, start, ids).sent
  {
    assert ids[i..][0] == ids[i];
    DeletesAppend(ids, i);
  }

  /** The loop of `removeAllLotusEvents`: `removeEvent(id)` for each id in turn, stopping at the first error. */
  method RemoveEach(ctx: Context, api: CalendarApi, ids: seq<string>) returns (r: Result<(), Failure>)
    modifies api
    ensures var out := Removal(api.oracles, ctx.user.Some?, |old(api.log)|, ids);
      r == out.result && api.log == old(api.log) + out.sent
  {
    ghost var o, signedIn, start, log0 := api.oracles, ctx.user.Some?, |api.log|, api.log;
    for i := 0 to |ids|
      invariant api.log == log0 + Deletes(ids[..i])
      invariant Resumes(o, signedIn, start, ids, i)
    {
      ghost var log := api.log;
      r := RemoveEvent(ctx, api, ids[i]);
      if r.Err? {
        RemovalStop(o, signedIn, start, ids, i, log0, log);
        return;
      }
      RemovalStep(o, signedIn, start, ids, i, log0, log);
    }
    return Ok(());
  }

  /** `removeAllLotusEvents()`: the removal loop over the ids of the context's Lotus events, in order. */
  method RemoveAllLotusEvents(ctx: Context, api: CalendarApi) returns (r: Result<(), Failure>)
    modifies api
    ensures var out := Removal(api.oracles, ctx.user.Some?, |old(api.log)|, Ids(LotusEvents(ctx.events)));
      r == out.result && api.log == old(api.log) + out.sent
  {
    var events := ctx.GetEvents();
    var lotusEvents := LotusEvents(events);
    r := RemoveEach(ctx, api, Ids(lotusEvents));
  }
}
