/**
 * The lenient parser of RFC 5545 RECUR values (section 3.3.10) used for the
 * recurrence lines of calendar events: `RRULE:FREQ=WEEKLY;BYDAY=MO,WE` becomes a
 * record with one optional field per recognised rule part.
 */
module RRule {
  import opened Wrappers
  import opened Text
  import opened JsNumber

  /** A parsed rule; a field is `None` when no part of the line set it. */
  datatype RecurrenceRule = RecurrenceRule(
    freq: Option<string>,
    interval: Option<Number>,
    until: Option<string>,
    count: Option<Number>,
    bysecond: Option<seq<Number>>,
    byminute: Option<seq<Number>>,
    byhour: Option<seq<Number>>,
    byday: Option<seq<string>>,
    bymonthday: Option<seq<Number>>,
    byyearday: Option<seq<Number>>,
    byweekno: Option<seq<Number>>,
    bymonth: Option<seq<Number>>,
    bysetpos: Option<seq<Number>>,
    wkst: Option<string>,
    rdate: Option<seq<string>>,
    exdate: Option<seq<string>>)

  /** The rule `{}` every parse starts from. */
  const EmptyRule: RecurrenceRule :=
    RecurrenceRule(None, None, None, None, None, None, None, None,
                   None, None, None, None, None, None, None, None)

  /** The lower-cased keys the parser recognises; every other key is ignored. */
  const Keys: set<string> :=
    {"freq", "interval", "until", "count", "bysecond", "byminute", "byhour", "byday",
     "bymonthday", "byyearday", "byweekno", "bymonth", "bysetpos", "wkst", "rdate", "exdate"}

  /** The keys whose value is a comma-separated list of integers. */
  const NumberListKeys: set<string> :=
    {"bysecond", "byminute", "byhour", "bymonthday", "byyearday", "byweekno", "bymonth", "bysetpos"}

  /** The line without one leading, case-sensitive `RRULE:`. */
  function StripPrefix(s: string): string
  {
    if "RRULE:" <= s then s[6..] else s
  }

  /** `value.split(',').map(v => parseInt(v, 10))`. */
  function Numbers(value: string): seq<Number>
  {
    var tokens := Split(value, ',');
    seq(|tokens|, i requires 0 <= i < |tokens| => ParseInt(tokens[i]))
  }

  /** `value.split(',').map(v => v.toLowerCase())`. */
  function LowerTokens(value: string): seq<string>
  {
    var tokens := Split(value, ',');
    seq(|tokens|, i requires 0 <= i < |tokens| => ToLower(tokens[i]))
  }

  /** The effect of one `case` of the `switch (lowerKey)`: the field it names set from `value`. */
  function SetField(rule: RecurrenceRule, lowerKey: string, value: string): (r: RecurrenceRule)
    ensures lowerKey !in Keys ==> r == rule
  {
    match lowerKey
    case "freq" => rule.(freq := Some(ToLower(value)))
    case "interval" => rule.(interval := Some(ParseInt(value)))
    case "until" => rule.(until := Some(value))
    case "count" => rule.(count := Some(ParseInt(value)))
    case "bysecond" => rule.(bysecond := Some(Numbers(value)))
    case "byminute" => rule.(byminute := Some(Numbers(value)))
    case "byhour" => rule.(byhour := Some(Numbers(value)))
    case "byday" => rule.(byday := Some(LowerTokens(value)))
    case "bymonthday" => rule.(bymonthday := Some(Numbers(value)))
    case "byyearday" => rule.(byyearday := Some(Numbers(value)))
    case "byweekno" => rule.(byweekno := Some(Numbers(value)))
    case "bymonth" => rule.(bymonth := Some(Numbers(value)))
    case "bysetpos" => rule.(bysetpos := Some(Numbers(value)))
    case "wkst" => rule.(wkst := Some(ToLower(value)))
    case "rdate" => rule.(rdate := Some(Split(value, ',')))
    case "exdate" => rule.(exdate := Some(Split(value, ',')))
    case _ => rule
  }

  /**
   * One `;`-separated part: `const [key, value] = part.split('=')`, skipped when
   * either is missing or empty, otherwise dispatched on the lower-cased key.
   */
  function ApplyPart(rule: RecurrenceRule, part: string): RecurrenceRule
  {
    var pieces := Split(part, '=');
    if pieces[0] == "" || |pieces| < 2 || pieces[1] == "" then rule
    else SetField(rule, ToLower(pieces[0]), pieces[1])
  }

  /** The parts applied in order, left to right. */
  function ApplyParts(rule: RecurrenceRule, parts: seq<string>): RecurrenceRule
  {
    if |parts| == 0 then rule
    else ApplyPart(ApplyParts(rule, parts[..|parts| - 1]), parts[|parts| - 1])
  }

  /** What `parseRRule` returns for a line. */
  function RuleOf(line: string): RecurrenceRule
  {
    ApplyParts(EmptyRule, Split(StripPrefix(line), ';'))
  }

  /**
   * `parseRRule`: strip the prefix, split on `;`, and let every complete part
   * assign its field of a rule that starts empty.
   */
  method ParseRRule(rruleString: string) returns (rule: RecurrenceRule)
    ensures rule == RuleOf(rruleString)
  {
    rule := EmptyRule;
    var cleanRule := if "RRULE:" <= rruleString then rruleString[6..] else rruleString;
    var parts := Split(cleanRule, ';');
    for i := 0 to |parts|
      invariant rule == ApplyParts(EmptyRule, parts[..i])
    {
      assert parts[..i + 1][..i] == parts[..i];
      var pieces := Split(parts[i], '=');
      if pieces[0] == "" || |pieces| < 2 || pieces[1] == "" {
        continue;
      }
      var lowerKey, value := ToLower(pieces[0]), pieces[1];
      match lowerKey {
        case "freq" => rule := rule.(freq := Some(ToLower(value)));
        case "interval" => rule := rule.(interval := Some(ParseInt(value)));
        case "until" => rule := rule.(until := Some(value));
        case "count" => rule := rule.(count := Some(ParseInt(value)));
        case "bysecond" => rule := rule.(bysecond := Some(Numbers(value)));
        case "byminute" => rule := rule.(byminute := Some(Numbers(value)));
        case "byhour" => rule := rule.(byhour := Some(Numbers(value)));
        case "byday" => rule := rule.(byday := Some(LowerTokens(value)));
        case "bymonthday" => rule := rule.(bymonthday := Some(Numbers(value)));
        case "byyearday" => rule := rule.(byyearday := Some(Numbers(value)));
        case "byweekno" => rule := rule.(byweekno := Some(Numbers(value)));
        case "bymonth" => rule := rule.(bymonth := Some(Numbers(value)));
        case "bysetpos" => rule := rule.(bysetpos := Some(Numbers(value)));
        case "wkst" => rule := rule.(wkst := Some(ToLower(value)));
        case "rdate" => rule := rule.(rdate := Some(Split(value, ',')));
        case "exdate" => rule := rule.(exdate := Some(Split(value, ',')));
        case _ =>
      }
    }
    assert parts[..|parts|] == parts;
  }

  /** `parseRecurrenceArray`: every line parsed, in order. */
  function ParseRecurrenceArray(lines: seq<string>): (rules: seq<RecurrenceRule>)
    ensures |rules| == |lines|
  {
    if |lines| == 0 then [] else [RuleOf(lines[0])] + ParseRecurrenceArray(lines[1..])
  }

  /** The i-th rule is the parse of the i-th line. */
  lemma {:induction false} RulesPerLine(lines: seq<string>)
    ensures forall i :: 0 <= i < |lines| ==> ParseRecurrenceArray(lines)[i] == RuleOf(lines[i])
  {
    if |lines| > 0 {
      RulesPerLine(lines[1..]);
      var rules := ParseRecurrenceArray(lines);
      forall i | 0 <= i < |lines|
        ensures rules[i] == RuleOf(lines[i])
      {
        if i > 0 {
          assert rules[i] == ParseRecurrenceArray(lines[1..])[i - 1];
          assert lines[i] == lines[1..][i - 1];
        }
      }
    }
  }

  /** Parsing a list of lines distributes over concatenation. */
  lemma ParseRecurrenceArrayConcat(a: seq<string>, b: seq<string>)
    ensures ParseRecurrenceArray(a + b) == ParseRecurrenceArray(a) + ParseRecurrenceArray(b)
  {
    RulesPerLine(a + b);
    RulesPerLine(a);
    RulesPerLine(b);
    var left, right := ParseRecurrenceArray(a + b), ParseRecurrenceArray(a) + ParseRecurrenceArray(b);
    forall i | 0 <= i < |left|
      ensures left[i] == right[i]
    {
      if i < |a| {
        assert (a + b)[i] == a[i];
      } else {
        assert (a + b)[i] == b[i - |a|];
      }
    }
  }

  // ---------------------------------------------------------------------------
  // The prefix and the empty line

  /** A leading `RRULE:` is removed once and only then; the rest is read as rule parts. */
  lemma PrefixStripped(body: string)
    ensures RuleOf("RRULE:" + body) == ApplyParts(EmptyRule, Split(body, ';'))
    ensures !("RRULE:" <= body) ==> RuleOf(body) == ApplyParts(EmptyRule, Split(body, ';'))
  {
    assert ("RRULE:" + body)[6..] == body;
  }

  /** The empty line parses to the empty rule. */
  lemma EmptyLineIsEmptyRule()
    ensures RuleOf("") == EmptyRule
  {
    assert Split("", ';') == [""];
    assert Split("", '=') == [""];
  }

  // ---------------------------------------------------------------------------
  // One part

  /** A part without `=` is skipped. */
  lemma PartWithoutEqualsSkipped(rule: RecurrenceRule, part: string)
    requires '=' !in part
    ensures ApplyPart(rule, part) == rule
  {
    SplitNoSeparator(part, '=');
  }

  /** A part with an empty key (`=X`) is skipped. */
  lemma PartWithEmptyKeySkipped(rule: RecurrenceRule, rest: string)
    ensures ApplyPart(rule, "=" + rest) == rule
  {
    SplitAppend("", rest, '=');
    assert "" + ['='] + rest == "=" + rest;
  }

  /** A part with an empty value (`FREQ=`, `FREQ==X`) is skipped. */
  lemma PartWithEmptyValueSkipped(rule: RecurrenceRule, key: string, rest: string)
    requires '=' !in key
    requires rest == [] || rest[0] == '='
    ensures ApplyPart(rule, key + "=" + rest) == rule
  {
    SplitAppend(key, rest, '=');
    assert key + ['='] + rest == key + "=" + rest;
    if rest != [] {
      SplitAppend("", rest[1..], '=');
      assert "" + ['='] + rest[1..] == rest;
    }
  }

  /**
   * A complete part sets the field its lower-cased key names from its value; anything
   * after a second `=` is dropped.
   */
  lemma CompletePartSetsField(rule: RecurrenceRule, key: string, value: string, tail: string)
    requires key != "" && value != ""
    requires '=' !in key && '=' !in value
    ensures ApplyPart(rule, key + "=" + value) == SetField(rule, ToLower(key), value)
    ensures ApplyPart(rule, key + "=" + value + "=" + tail) == SetField(rule, ToLower(key), value)
  {
    SplitAppend(key, value, '=');
    SplitNoSeparator(value, '=');
    assert key + ['='] + value == key + "=" + value;
    SplitAppend(key, value + "=" + tail, '=');
    SplitAppend(value, tail, '=');
    assert key + ['='] + (value + "=" + tail) == key + "=" + value + "=" + tail;
    assert value + ['='] + tail == value + "=" + tail;
  }

  /** Keys are matched case-insensitively. */
  lemma KeyCaseInsensitive(rule: RecurrenceRule, key1: string, key2: string, value: string)
    requires key1 != "" && key2 != "" && value != ""
    requires '=' !in key1 && '=' !in key2 && '=' !in value
    requires ToLower(key1) == ToLower(key2)
    ensures ApplyPart(rule, key1 + "=" + value) == ApplyPart(rule, key2 + "=" + value)
  {
    CompletePartSetsField(rule, key1, value, "");
    CompletePartSetsField(rule, key2, value, "");
  }

  // ---------------------------------------------------------------------------
  // What each recognised key stores

  /** A part whose lower-cased key is not recognised leaves the rule unchanged. */
  lemma UnknownKeyIgnored(rule: RecurrenceRule, key: string, value: string)
    requires key != "" && value != ""
    requires '=' !in key && '=' !in value
    requires ToLower(key) !in Keys
    ensures ApplyPart(rule, key + "=" + value) == rule
  {
    CompletePartSetsField(rule, key, value, "");
  }

  /** `freq` and `wkst` store the lower-cased value, whatever it is: no check against the enumeration. */
  lemma FreqAndWkstLowercased(rule: RecurrenceRule, value: string)
    ensures SetField(rule, "freq", value).freq == Some(ToLower(value))
    ensures SetField(rule, "wkst", value).wkst == Some(ToLower(value))
    ensures SetField(rule, "until", value).until == Some(value)
  {
  }

  /** The integer list a key names. */
  function NumberList(rule: RecurrenceRule, lowerKey: string): Option<seq<Number>>
    requires lowerKey in NumberListKeys
  {
    match lowerKey
    case "bysecond" => rule.bysecond
    case "byminute" => rule.byminute
    case "byhour" => rule.byhour
    case "bymonthday" => rule.bymonthday
    case "byyearday" => rule.byyearday
    case "byweekno" => rule.byweekno
    case "bymonth" => rule.bymonth
    case "bysetpos" => rule.bysetpos
  }

  /** Each integer list holds one `parseInt` result per comma-separated token, in order. */
  lemma NumberListTokenwise(rule: RecurrenceRule, lowerKey: string, value: string)
    requires lowerKey in NumberListKeys
    ensures var list := NumberList(SetField(rule, lowerKey, value), lowerKey);
      && list.Some?
      && |list.value| == |Split(value, ',')|
      && forall i :: 0 <= i < |list.value| ==> list.value[i] == ParseInt(Split(value, ',')[i])
  {
    assert NumberList(SetField(rule, lowerKey, value), lowerKey) == Some(Numbers(value));
  }

  /** A written integer reads back as that integer; a token without digits is NaN, not an error. */
  lemma NumberTokens(n: int, word: string)
    requires word == [] || (!IsDigit(word[0]) && word[0] != '-' && word[0] != '+')
    ensures SetField(EmptyRule, "count", Decimal(n)).count == Some(Num(n))
    ensures SetField(EmptyRule, "interval", word).interval == Some(NaN)
  {
    ParseDecimal(n);
  }

  /** `byday` holds each token lower-cased, one per comma-separated token, in order. */
  lemma ByDayTokenwise(rule: RecurrenceRule, value: string)
    ensures var days := SetField(rule, "byday", value).byday;
      && days.Some?
      && |days.value| == |Split(value, ',')|
      && forall i :: 0 <= i < |days.value| ==> days.value[i] == ToLower(Split(value, ',')[i])
  {
  }

  /** `rdate` and `exdate` keep the tokens verbatim: joining them again gives the value back. */
  lemma DatesVerbatim(rule: RecurrenceRule, value: string)
    ensures SetField(rule, "rdate", value).rdate.Some?
    ensures Join(SetField(rule, "rdate", value).rdate.value, ',') == value
    ensures SetField(rule, "exdate", value).exdate.Some?
    ensures Join(SetField(rule, "exdate", value).exdate.value, ',') == value
  {
    JoinSplit(value, ',');
  }

  /** A later complete part with the same key, in any letter case, overwrites the earlier one. */
  lemma LastValueWins(rule: RecurrenceRule, key1: string, value1: string, key2: string, value2: string)
    requires key1 != "" && value1 != "" && key2 != "" && value2 != ""
    requires '=' !in key1 && '=' !in value1 && '=' !in key2 && '=' !in value2
    requires ToLower(key1) == ToLower(key2)
    ensures ApplyPart(ApplyPart(rule, key1 + "=" + value1), key2 + "=" + value2)
         == ApplyPart(rule, key2 + "=" + value2)
  {
    var first := ApplyPart(rule, key1 + "=" + value1);
    CompletePartSetsField(rule, key1, value1, "");
    CompletePartSetsField(first, key2, value2, "");
    CompletePartSetsField(rule, key2, value2, "");
    SetFieldTwice(rule, ToLower(key2), value1, value2);
  }

  /** Setting the same field twice keeps the second value only. */
  lemma SetFieldTwice(rule: RecurrenceRule, lowerKey: string, value1: string, value2: string)
    ensures SetField(SetField(rule, lowerKey, value1), lowerKey, value2) == SetField(rule, lowerKey, value2)
  {
  }

  // ---------------------------------------------------------------------------
  // Whole lines

  /** Applying two runs of parts in turn is applying their concatenation. */
  lemma {:induction false} ApplyPartsConcat(rule: RecurrenceRule, a: seq<string>, b: seq<string>)
    ensures ApplyParts(rule, a + b) == ApplyParts(ApplyParts(rule, a), b)
  {
    if |b| > 0 {
      ApplyPartsConcat(rule, a, b[..|b| - 1]);
      assert (a + b)[..|a + b| - 1] == a + b[..|b| - 1];
    } else {
      assert a + b == a;
    }
  }

  /** Appending `;key=value` to a line applies that part after all the line's own parts. */
  lemma AppendedPart(line: string, key: string, value: string)
    requires key != "" && value != ""
    requires '=' !in key && '=' !in value && ';' !in key && ';' !in value
    ensures RuleOf(line + ";" + key + "=" + value) == SetField(RuleOf(line), ToLower(key), value)
  {
    var part := key + "=" + value;
    assert line + ";" + key + "=" + value == line + [';'] + part;
    StripAppended(line, part);
    assert ';' !in part by { assert part == key + ['='] + value; }
    SplitConcat(StripPrefix(line), part, ';');
    SplitNoSeparator(part, ';');
    var parts := Split(StripPrefix(line), ';');
    assert (parts + [part])[..|parts|] == parts;
    CompletePartSetsField(RuleOf(line), key, value, "");
  }

  /** Text appended after a `;` is not part of the `RRULE:` prefix. */
  lemma StripAppended(line: string, part: string)
    ensures StripPrefix(line + [';'] + part) == StripPrefix(line) + [';'] + part
  {
    if "RRULE:" <= line {
      assert (line + [';'] + part)[6..] == line[6..] + [';'] + part;
    } else if |line| >= 6 {
      assert (line + [';'] + part)[..6] == line[..6];
    } else {
      assert (line + [';'] + part)[|line|] == ';';
    }
  }

  // ---------------------------------------------------------------------------
  // Whole lines of the documented shapes

  /** A line made of one complete part sets that part's field of the empty rule. */
  lemma {:induction false} OnePartLine(line: string, key: string, value: string)
    requires line == key + "=" + value
    requires key != "" && value != ""
    requires '=' !in key && '=' !in value && ';' !in key && ';' !in value
    requires !("RRULE:" <= line)
    ensures RuleOf(line) == SetField(EmptyRule, ToLower(key), value)
  {
    PrefixStripped(line);
    assert ';' !in line by { assert line == key + ['='] + value; }
    SplitNoSeparator(line, ';');
    assert [line][..0] == [];
    CompletePartSetsField(EmptyRule, key, value, "");
  }

  /** `RRULE:KEY=VALUE` (for instance `RRULE:FREQ=DAILY`) reads the part after the prefix. */
  lemma {:induction false} PrefixedOnePartLine(key: string, value: string)
    requires key != "" && value != ""
    requires '=' !in key && '=' !in value && ';' !in key && ';' !in value
    ensures RuleOf("RRULE:" + key + "=" + value) == SetField(EmptyRule, ToLower(key), value)
  {
    var part := key + "=" + value;
    assert "RRULE:" + key + "=" + value == "RRULE:" + part;
    PrefixStripped(part);
    assert ';' !in part by { assert part == key + ['='] + value; }
    SplitNoSeparator(part, ';');
    assert [part][..0] == [];
    CompletePartSetsField(EmptyRule, key, value, "");
  }
}
