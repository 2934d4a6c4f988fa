/**
 * The CalDAV side of the Rust tool: `parse_caldav_response`, which walks the XML
 * tokens of a REPORT reply (a `D:multistatus` of `D:response` elements, section 7.8
 * of RFC 4791) and keeps one record per response that names a resource, and
 * `convert_to_standardized_format`, which hands calendar text to the iCalendar parser.
 */
module CaldavEvents {
  import opened Wrappers
  import opened Utf8
  import ICalendar

  /**
   * One answer of the XML reader: the start or end of an element with its qualified
   * name, a run of text (raw bytes), any other item (an empty element, a comment,
   * a declaration, CDATA), a read error, or the end of the input.
   */
  datatype XmlEvent = Start(name: seq<byte>) | End(name: seq<byte>) | Text(content: seq<byte>) | Other | Failed | Eof

  /** The record kept for a response: the resource's path, its entity tag and its iCalendar text. */
  datatype CalEvent = CalEvent(href: string, etag: string, data: string)

  /** The text captured so far for the response being read. */
  datatype Fields = Fields(href: string, etag: string, data: string)

  const Cleared := Fields("", "", "")

  /** Text of a captured field that is not well-formed UTF-8 ends the whole scan. */
  datatype ScanError = InvalidUtf8(bytes: seq<byte>)

  /** The three fields a start tag can fill. */
  datatype Field = Href | Etag | Data

  /** The bytes of a string of ASCII characters. */
  function Ascii(s: string): (b: seq<byte>)
    requires forall i :: 0 <= i < |s| ==> s[i] as int < 128
    ensures |b| == |s|
  {
    seq(|s|, i requires 0 <= i < |s| => s[i] as int as byte)
  }

  const ResponseTag: seq<byte> := Ascii("D:response")
  const HrefTag: seq<byte> := Ascii("D:href")
  const EtagTag: seq<byte> := Ascii("D:getetag")
  const DataSuffix: seq<byte> := Ascii("calendar-data")

  predicate EndsWith(name: seq<byte>, suffix: seq<byte>)
  {
    |suffix| <= |name| && name[|name| - |suffix|..] == suffix
  }

  /**
   * The field a start tag fills, tried in the order of the arms of the scanner:
   * `D:href` and `D:getetag` by their exact prefixed names, calendar data by any
   * name that ends in `calendar-data`, whatever its namespace prefix.
   */
  function FieldOf(name: seq<byte>): (field: Option<Field>)
    ensures name == ResponseTag ==> field.None?
    ensures field == Some(Href) <==> name == HrefTag
    ensures field == Some(Etag) <==> name == EtagTag
    ensures field == Some(Data) <==> EndsWith(name, DataSuffix)
  {
    if name == HrefTag then Some(Href)
    else if name == EtagTag then Some(Etag)
    else if EndsWith(name, DataSuffix) then Some(Data)
    else None
  }

  function Fill(f: Fields, field: Field, s: string): Fields
  {
    match field
    case Href => f.(href := s)
    case Etag => f.(etag := s)
    case Data => f.(data := s)
  }

  /** What the reader answers at position `i`: the token there, or `Eof` for ever once the input is used up. */
  function At(tokens: seq<XmlEvent>, i: nat): XmlEvent
  {
    if i < |tokens| then tokens[i] else Eof
  }

  /**
   * The token read right after a field's start tag: text that decodes is the new
   * value, text that does not is an error, and anything else leaves the field as it is.
   */
  function Captured(next: XmlEvent): (r: Result<Option<string>, ScanError>)
    ensures !next.Text? ==> r == Ok(None)
    ensures next.Text? && Decode(next.content).Some? ==> r == Ok(Some(Decode(next.content).value))
    ensures next.Text? && Decode(next.content).None? ==> r == Err(InvalidUtf8(next.content))
  {
    if !next.Text? then Ok(None)
    else match Decode(next.content)
      case None => Err(InvalidUtf8(next.content))
      case Some(s) => Ok(Some(s))
  }

  /**
   * The scan of the remaining tokens, from the captured fields `f`, having already
   * kept `events`. A field's start tag always consumes the token after it.
   */
  function Scan(tokens: seq<XmlEvent>, f: Fields, events: seq<CalEvent>): Result<seq<CalEvent>, ScanError>
    decreases |tokens|
  {
    if tokens == [] then Ok(events)
    else match tokens[0]
      case Eof => Ok(events)
      case Start(name) =>
        if name == ResponseTag then Scan(tokens[1..], Cleared, events)
        else if FieldOf(name).None? then Scan(tokens[1..], f, events)
        else
          var rest := if |tokens| < 2 then [] else tokens[2..];
          (match Captured(At(tokens, 1))
           case Err(e) => Err(e)
           case Ok(None) => Scan(rest, f, events)
           case Ok(Some(s)) => Scan(rest, Fill(f, FieldOf(name).value, s), events))
      case End(name) =>
        if name == ResponseTag && f.href != "" then Scan(tokens[1..], f, events + [CalEvent(f.href, f.etag, f.data)])
        else Scan(tokens[1..], f, events)
      case _ => Scan(tokens[1..], f, events)
  }

  /** A reader's place in its token stream. */
  class Reader {
    const tokens: seq<XmlEvent>
    var pos: nat

    constructor (tokens: seq<XmlEvent>)
      ensures this.tokens == tokens && pos == 0
    {
      this.tokens := tokens;
      pos := 0;
    }

    /** The next token; at the end of the input the reader stays where it is and answers `Eof`. */
    method ReadEvent() returns (e: XmlEvent)
      modifies this
      ensures e == At(tokens, old(pos))
      ensures pos == if old(pos) < |tokens| then old(pos) + 1 else old(pos)
    {
      if pos < |tokens| {
        e := tokens[pos];
        pos := pos + 1;
      } else {
        e := Eof;
      }
    }
  }

  /** The read after a field's start tag. */
  method ReadField(reader: Reader) returns (r: Result<Option<string>, ScanError>)
    modifies reader
    ensures r == Captured(At(reader.tokens, old(reader.pos)))
    ensures reader.pos == if old(reader.pos) < |reader.tokens| then old(reader.pos) + 1 else old(reader.pos)
  {
    var next := reader.ReadEvent();
    if next.Text? {
      var s := Decode(next.content);
      if s.None? {
        return Err(InvalidUtf8(next.content));
      }
      return Ok(Some(s.value));
    }
    return Ok(None);
  }

  method ParseCaldavResponse(tokens: seq<XmlEvent>) returns (r: Result<seq<CalEvent>, ScanError>)
    ensures r == Scan(tokens, Cleared, [])
  {
    var events: seq<CalEvent> := [];
    var reader := new Reader(tokens);
    var href, etag, data := "", "", "";
    while true
      invariant reader.tokens == tokens && reader.pos <= |tokens|
      invariant Scan(tokens[reader.pos..], Fields(href, etag, data), events) == Scan(tokens, Cleared, [])
      decreases |tokens| - reader.pos
    {
      ghost var before := Fields(href, etag, data);
      ghost var rest := tokens[reader.pos..];
      var e := reader.ReadEvent();
      assert rest != [] ==> rest[0] == e && rest[1..] == tokens[reader.pos..];
      if e.Start? && e.name == ResponseTag {
        href, etag, data := "", "", "";
      } else if e.End? && e.name == ResponseTag {
        if href != "" {
          events := events + [CalEvent(href, etag, data)];
        }
      } else if e.Start? && FieldOf(e.name).Some? {
        ghost var after := tokens[reader.pos..];
        var c := ReadField(reader);
        assert At(rest, 1) == At(tokens, reader.pos - 1) || (after == [] && At(rest, 1) == Eof);
        assert tokens[reader.pos..] == if |rest| < 2 then [] else rest[2..];
        if c.Err? {
          return Err(c.error);
        }
        if c.value.Some? {
          match FieldOf(e.name).value {
            case Href => href := c.value.value;
            case Etag => etag := c.value.value;
            case Data => data := c.value.value;
          }
        }
      } else if e.Eof? {
        break;
      }
    }
    return Ok(events);
  }

  /** Scanning only ever appends, and everything it appends names a resource. */
  lemma {:induction false} ScanAppends(tokens: seq<XmlEvent>, f: Fields, events: seq<CalEvent>)
    requires Scan(tokens, f, events).Ok?
    ensures var out := Scan(tokens, f, events).value;
      events <= out && forall i :: |events| <= i < |out| ==> out[i].href != ""
    decreases |tokens|
  {
    if tokens != [] {
      match tokens[0] {
      case Eof =>
      case Start(name) =>
        if name == ResponseTag {
          ScanAppends(tokens[1..], Cleared, events);
        } else if FieldOf(name).None? {
          ScanAppends(tokens[1..], f, events);
        } else {
          var rest := if |tokens| < 2 then [] else tokens[2..];
          match Captured(At(tokens, 1)) {
            case Ok(None) => ScanAppends(rest, f, events);
            case Ok(Some(s)) => ScanAppends(rest, Fill(f, FieldOf(name).value, s), events);
            case Err(_) =>
          }
        }
      case End(name) =>
        if name == ResponseTag && f.href != "" {
          var more := events + [CalEvent(f.href, f.etag, f.data)];
          ScanAppends(tokens[1..], f, more);
        } else {
          ScanAppends(tokens[1..], f, events);
        }
      case _ => ScanAppends(tokens[1..], f, events);
      }
    }
  }

  /** Whatever was captured before a response starts has no effect on what follows. */
  lemma ResponseStartForgets(rest: seq<XmlEvent>, f1: Fields, f2: Fields, events: seq<CalEvent>)
    ensures Scan([Start(ResponseTag)] + rest, f1, events) == Scan([Start(ResponseTag)] + rest, f2, events)
    ensures Scan([Start(ResponseTag)] + rest, f1, events) == Scan(rest, Cleared, events)
  {
    assert ([Start(ResponseTag)] + rest)[1..] == rest;
  }

  /** A response without an href is dropped. */
  lemma HreflessResponseDropped(rest: seq<XmlEvent>, f: Fields, events: seq<CalEvent>)
    ensures Scan([Start(ResponseTag), End(ResponseTag)] + rest, f, events) == Scan(rest, Cleared, events)
  {
    var t := [Start(ResponseTag), End(ResponseTag)] + rest;
    assert t[1..][1..] == rest;
  }

  /**
   * A field's start tag followed by anything but text leaves the field unchanged and
   * consumes that token: even the end of the response is lost then.
   */
  lemma FieldNeedsText(name: seq<byte>, next: XmlEvent, rest: seq<XmlEvent>, f: Fields, events: seq<CalEvent>)
    requires FieldOf(name).Some? && !next.Text?
    ensures Scan([Start(name), next] + rest, f, events) == Scan(rest, f, events)
  {
    assert ([Start(name), next] + rest)[2..] == rest;
  }

  /** Ill-formed UTF-8 in a captured field is an error, whatever comes after it. */
  lemma InvalidTextFails(name: seq<byte>, bytes: seq<byte>, rest: seq<XmlEvent>, f: Fields, events: seq<CalEvent>)
    requires FieldOf(name).Some? && Decode(bytes).None?
    ensures Scan([Start(name), Text(bytes)] + rest, f, events) == Err(InvalidUtf8(bytes))
  {
  }

  /** Nothing after the end of the input is read. */
  lemma StopsAtEof(rest: seq<XmlEvent>, f: Fields, events: seq<CalEvent>)
    ensures Scan([Eof] + rest, f, events) == Ok(events)
  {
  }

  /** Calendar data is recognised under any namespace prefix. */
  lemma DataTagAnyPrefix(prefix: seq<byte>)
    ensures FieldOf(prefix + DataSuffix) == Some(Data)
  {
    var name := prefix + DataSuffix;
    assert name[|name| - |DataSuffix|..] == DataSuffix;
  }

  /** The tokens of one property element holding `text`. */
  function FieldTokens(tag: seq<byte>, text: string): seq<XmlEvent>
  {
    [Start(tag), Text(Encode(text)), End(tag)]
  }

  /** The tokens of a `D:response` for `ev`, its calendar data under the tag `prefix + calendar-data`. */
  function ResponseTokens(ev: CalEvent, prefix: seq<byte>): seq<XmlEvent>
  {
    [Start(ResponseTag)] + FieldTokens(HrefTag, ev.href) + FieldTokens(EtagTag, ev.etag)
    + FieldTokens(prefix + DataSuffix, ev.data) + [End(ResponseTag)]
  }

  /** The responses for `evs`, one after the other. */
  function Multistatus(evs: seq<CalEvent>, prefix: seq<byte>): seq<XmlEvent>
  {
    if evs == [] then [] else ResponseTokens(evs[0], prefix) + Multistatus(evs[1..], prefix)
  }

  /** A property element holding well-formed text sets its field to that text. */
  lemma ScanField(tag: seq<byte>, text: string, rest: seq<XmlEvent>, f: Fields, events: seq<CalEvent>)
    requires FieldOf(tag).Some?
    ensures Scan(FieldTokens(tag, text) + rest, f, events) == Scan(rest, Fill(f, FieldOf(tag).value, text), events)
  {
    var t := FieldTokens(tag, text) + rest;
    DecodeEncode(text);
    assert At(t, 1) == Text(Encode(text));
    assert t[2..] == [End(tag)] + rest;
    assert t[2..][1..] == rest;
  }

  /** A response with an href yields exactly its record and leaves its fields captured. */
  lemma OneResponse(ev: CalEvent, prefix: seq<byte>, rest: seq<XmlEvent>, f: Fields, events: seq<CalEvent>)
    requires ev.href != ""
    ensures Scan(ResponseTokens(ev, prefix) + rest, f, events)
         == Scan(rest, Fields(ev.href, ev.etag, ev.data), events + [ev])
  {
    var dataTag := prefix + DataSuffix;
    DataTagAnyPrefix(prefix);
    var t4 := [End(ResponseTag)] + rest;
    var t3 := FieldTokens(dataTag, ev.data) + t4;
    var t2 := FieldTokens(EtagTag, ev.etag) + t3;
    var t1 := FieldTokens(HrefTag, ev.href) + t2;
    var t0 := [Start(ResponseTag)] + t1;
    assert ResponseTokens(ev, prefix) + rest == t0;
    ResponseStartForgets(t1, f, Cleared, events);
    ScanField(HrefTag, ev.href, t2, Cleared, events);
    ScanField(EtagTag, ev.etag, t3, Fields(ev.href, "", ""), events);
    ScanField(dataTag, ev.data, t4, Fields(ev.href, ev.etag, ""), events);
    ResponseEndRecords(rest, Fields(ev.href, ev.etag, ev.data), events);
  }

  /** The end of a response with an href appends its record. */
  lemma ResponseEndRecords(rest: seq<XmlEvent>, f: Fields, events: seq<CalEvent>)
    requires f.href != ""
    ensures Scan([End(ResponseTag)] + rest, f, events) == Scan(rest, f, events + [CalEvent(f.href, f.etag, f.data)])
  {
    assert ([End(ResponseTag)] + rest)[1..] == rest;
  }

  /**
   * A reply built from records that all name a resource scans back to exactly those
   * records, in document order.
   */
  lemma {:induction false} ResponsesScanned(evs: seq<CalEvent>, prefix: seq<byte>, f: Fields, events: seq<CalEvent>)
    requires forall i :: 0 <= i < |evs| ==> evs[i].href != ""
    ensures Scan(Multistatus(evs, prefix), f, events) == Ok(events + evs)
    decreases |evs|
  {
    if evs == [] {
      assert events + evs == events;
    } else {
      var ev, more := evs[0], evs[1..];
      assert forall i :: 0 <= i < |more| ==> more[i] == evs[i + 1];
      ResponsesScanned(more, prefix, Fields(ev.href, ev.etag, ev.data), events + [ev]);
      OneResponse(ev, prefix, Multistatus(more, prefix), f, events);
      assert events + [ev] + more == events + evs by {
        assert [ev] + more == evs;
      }
    }
  }

  /**
   * The loop over the records with its early return: only index 0 passes the sampling
   * test before the function returns, so the result is the parse of the first record
   * alone, or nothing for no records.
   */
  method ConvertToStandardized(events: seq<CalEvent>) returns (standardized: seq<ICalendar.Value>)
    ensures events == [] ==> standardized == []
    ensures events != [] ==> standardized == [ICalendar.Document(events[0].data)]
  {
    standardized := [];
    for i := 0 to |events|
      invariant standardized == []
      invariant forall j :: 0 <= j < i ==> !Sampled(j)
    {
      if Sampled(i) {
        assert Sampled(0);
        assert i == 0;
        var standardizedEvent := ICalendar.Parse(events[i].data);
        standardized := standardized + [standardizedEvent];
        return;
      }
    }
    assert Sampled(0);
  }

  /** The sampling test of the conversion loop. */
  predicate Sampled(i: int)
  {
    i % 100 == 0
  }
}
