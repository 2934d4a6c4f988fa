/**
 * `ICalendarParser::parse`: iCalendar text (content lines, section 3.1 of RFC 5545,
 * grouped into components, section 3.6) read line by line into nested maps with a
 * stack of enclosing components. It never fails: lines it cannot use are skipped.
 */
module ICalendar {
  import opened Wrappers
  import opened Text

  /** The YAML values the parser builds: strings, maps with string keys, and sequences. */
  datatype Value = Str(s: string) | Mapping(m: map<string, Value>) | Sequence(items: seq<Value>)

  /** The parser's state: the maps of the enclosing components (innermost last) and the map being filled. */
  datatype Parser = Parser(stack: seq<map<string, Value>>, current: map<string, Value>)

  const Start := Parser([], map[])

  /** A trailing `\r` removed. */
  function StripCr(s: string): (r: string)
    ensures |s| > 0 && s[|s| - 1] == '\r' ==> s == r + ['\r']
    ensures (|s| == 0 || s[|s| - 1] != '\r') ==> r == s
  {
    if |s| > 0 && s[|s| - 1] == '\r' then s[..|s| - 1] else s
  }

  /**
   * `str::lines`: the text cut at each `\n`, a line ended by `\r\n` losing its `\r`.
   * A final empty piece after a closing `\n`, which `lines` does not produce, is
   * blank and so skipped by the parser all the same.
   */
  function Lines(data: string): (lines: seq<string>)
    ensures |lines| >= 1
  {
    var pieces := Split(data, '\n');
    seq(|pieces|, i requires 0 <= i < |pieces| => if i < |pieces| - 1 then StripCr(pieces[i]) else pieces[i])
  }

  /** Lines joined with `\n`, none ending in `\r`, are cut back into the same lines. */
  lemma LinesOfJoin(lines: seq<string>)
    requires |lines| >= 1
    requires forall i :: 0 <= i < |lines| ==> '\n' !in lines[i] && (lines[i] == [] || lines[i][|lines[i]| - 1] != '\r')
    ensures Lines(Join(lines, '\n')) == lines
  {
    SplitJoin(lines, '\n');
  }

  /** The lines with `\r` put back before every `\n` that will follow them: all but the last. */
  function WithCr(lines: seq<string>): (crlf: seq<string>)
    ensures |crlf| == |lines|
  {
    seq(|lines|, i requires 0 <= i < |lines| => if i < |lines| - 1 then lines[i] + ['\r'] else lines[i])
  }

  /** Text with `\r\n` line endings, as RFC 5545 writes content lines, is cut into its lines without the `\r`. */
  lemma LinesOfCrlfJoin(lines: seq<string>)
    requires |lines| >= 1
    requires forall i :: 0 <= i < |lines| ==> '\n' !in lines[i]
    ensures Lines(Join(WithCr(lines), '\n')) == lines
  {
    var crlf := WithCr(lines);
    forall i | 0 <= i < |crlf|
      ensures '\n' !in crlf[i]
    {
      if i < |lines| - 1 {
        NotInConcat(lines[i], ['\r'], '\n');
      }
    }
    SplitJoin(crlf, '\n');
    var cut := Lines(Join(crlf, '\n'));
    forall i | 0 <= i < |lines|
      ensures cut[i] == lines[i]
    {
      if i < |lines| - 1 {
        assert crlf[i] == lines[i] + ['\r'];
        assert StripCr(crlf[i]) == lines[i];
      }
    }
  }

  /**
   * The parameters after the property name, each `k=v` cut at its first `=`; a later
   * parameter with the same name replaces an earlier one, one without `=` is dropped.
   */
  function Params(parts: seq<string>): map<string, Value>
    decreases |parts|
  {
    if parts == [] then map[]
    else
      var m := Params(parts[..|parts| - 1]);
      match SplitOnce(parts[|parts| - 1], '=')
      case Some(kv) => m[kv.0 := Str(kv.1)]
      case None => m
  }

  /**
   * The value stored for a property: a plain string when the parameter map, once
   * `value` is added, has that one key; the whole map otherwise.
   */
  function PropertyValue(parts: seq<string>, value: string): Value
  {
    var keyMap := Params(parts)["value" := Str(value)];
    if |keyMap| == 1 then Str(value) else Mapping(keyMap)
  }

  /** No parameter other than one named `value`. */
  predicate OnlyValueKey(m: map<string, Value>)
  {
    forall k :: k in m ==> k == "value"
  }

  /**
   * A property is stored as a plain string exactly when it has no parameter (with
   * `=`) other than one named `value`, which the property's value then replaces;
   * otherwise it is stored as its parameters together with `value`.
   */
  lemma PlainIffNoParameters(parts: seq<string>, value: string)
    ensures PropertyValue(parts, value).Str? <==> OnlyValueKey(Params(parts))
    ensures PropertyValue(parts, value).Str? ==> PropertyValue(parts, value) == Str(value)
    ensures PropertyValue(parts, value).Mapping? ==>
      PropertyValue(parts, value).m == Params(parts)["value" := Str(value)]
  {
    SingleKey(Params(parts), Str(value));
  }

  /** Adding `value` to a map leaves it with one key exactly when `value` was its only possible key. */
  lemma SingleKey(m: map<string, Value>, v: Value)
    ensures |m["value" := v]| == 1 <==> OnlyValueKey(m)
  {
    var keys := m["value" := v].Keys;
    assert |m["value" := v]| == |keys|;
    if OnlyValueKey(m) {
      assert keys == {"value"};
    } else {
      var k :| k in m && k != "value";
      TwoMembers(keys, k, "value");
    }
  }

  /** A set with two different members has at least two elements. */
  lemma TwoMembers(s: set<string>, a: string, b: string)
    requires a in s && b in s && a != b
    ensures |s| >= 2
  {
    var both := {a, b};
    var others := s - both;
    assert s == both + others && both !! others;
    assert |s| == |both| + |others|;
  }

  /** `END:key`: the finished map is stored under `key`, next to earlier ones of the same name. */
  function Attach(parent: map<string, Value>, key: string, entry: Value): map<string, Value>
  {
    if key !in parent then parent[key := entry]
    else match parent[key]
      case Sequence(items) => parent[key := Sequence(items + [entry])]
      case _ => parent[key := Sequence([parent[key], entry])]
  }

  /** `END:key`: the current map is closed into the innermost enclosing one, or into an empty map when there is none. */
  function Close(p: Parser, key: string): Parser
  {
    var parent := if p.stack == [] then map[] else p.stack[|p.stack| - 1];
    Parser(if p.stack == [] then [] else p.stack[..|p.stack| - 1], Attach(parent, key, Mapping(p.current)))
  }

  /** A line cut into its name, its parameters and its value, dispatched on the name. */
  function Dispatch(p: Parser, mainKey: string, params: seq<string>, value: string): Parser
  {
    if mainKey == "BEGIN" then Parser(p.stack + [p.current], map[])
    else if mainKey == "END" then Close(p, value)
    else Parser(p.stack, p.current[mainKey := PropertyValue(params, value)])
  }

  /** The text before the first `:` cut at each `;`: the name, then the parameters. */
  function Apply(p: Parser, rawKey: string, value: string): Parser
  {
    var parts := Split(rawKey, ';');
    Dispatch(p, parts[0], parts[1..], value)
  }

  /** One line of input. */
  function Step(p: Parser, line: string): (q: Parser)
    ensures |p.stack| - 1 <= |q.stack| <= |p.stack| + 1
  {
    if IsBlank(line) then p
    else match SplitOnce(TrimStart(line), ':')
      case None => p
      case Some(kv) => Apply(p, kv.0, kv.1)
  }

  /** A line starting with a non-blank name followed by `:` is applied as it is written. */
  lemma StepContentLine(p: Parser, rawKey: string, value: string)
    requires rawKey != [] && !IsSpace(rawKey[0]) && ':' !in rawKey
    ensures Step(p, rawKey + ":" + value) == Apply(p, rawKey, value)
  {
    var line := rawKey + ":" + value;
    assert line[0] == rawKey[0];
    assert !IsBlank(line) && TrimStart(line) == line;
    SplitOnceAt(rawKey, value, ':');
  }

  /** A name without parameters. */
  lemma ApplyName(p: Parser, name: string, value: string)
    requires ';' !in name
    ensures Apply(p, name, value) == Dispatch(p, name, [], value)
  {
    SplitNoSeparator(name, ';');
  }

  /** The lines read one after the other. */
  function Run(p: Parser, lines: seq<string>): Parser
    decreases |lines|
  {
    if lines == [] then p else Run(Step(p, lines[0]), lines[1..])
  }

  /** Each line opens or closes at most one component, so the depth moves by at most one per line. */
  lemma {:induction false} RunDepth(p: Parser, lines: seq<string>)
    ensures |p.stack| - |lines| <= |Run(p, lines).stack| <= |p.stack| + |lines|
    decreases |lines|
  {
    if lines != [] {
      RunDepth(Step(p, lines[0]), lines[1..]);
    }
  }

  /** Reading `a` and then `b` is reading `a + b`. */
  lemma {:induction false} RunConcat(p: Parser, a: seq<string>, b: seq<string>)
    ensures Run(p, a + b) == Run(Run(p, a), b)
    decreases |a|
  {
    if a == [] {
      assert a + b == b;
    } else {
      assert (a + b)[0] == a[0] && (a + b)[1..] == a[1..] + b;
      RunConcat(Step(p, a[0]), a[1..], b);
    }
  }

  /** The loop over the parameters after the name: each `k=v` inserted, in order. */
  method ReadParams(parts: seq<string>) returns (keyMap: map<string, Value>)
    ensures keyMap == Params(parts)
  {
    keyMap := map[];
    for j := 0 to |parts|
      invariant keyMap == Params(parts[..j])
    {
      assert parts[..j + 1][..j] == parts[..j];
      var param := SplitOnce(parts[j], '=');
      if param.Some? {
        keyMap := keyMap[param.value.0 := Str(param.value.1)];
      }
    }
    assert parts[..|parts|] == parts;
  }

  /** The document `parse` returns: the top-level map once every line has been read. */
  function Document(data: string): Value
  {
    Mapping(Run(Start, Lines(data)).current)
  }

  method Parse(data: string) returns (v: Value)
    ensures v == Document(data)
  {
    var lines := Lines(data);
    var stack: seq<map<string, Value>> := [];
    var current: map<string, Value> := map[];
    var i := 0;
    while i < |lines|
      invariant i <= |lines|
      invariant Run(Parser(stack, current), lines[i..]) == Run(Start, lines)
    {
      ghost var before := Parser(stack, current);
      var line := lines[i];
      assert lines[i..][0] == line && lines[i..][1..] == lines[i + 1..];
      i := i + 1;
      if IsBlank(line) {
        continue;
      }
      var kv := SplitOnce(TrimStart(line), ':');
      if kv.None? {
        continue;
      }
      var rawKey, value := kv.value.0, kv.value.1;
      assert Step(before, line) == Apply(before, rawKey, value);
      var keyParts := Split(rawKey, ';');
      var mainKey := keyParts[0];
      assert Step(before, line) == Dispatch(before, mainKey, keyParts[1..], value);
      var keyMap := ReadParams(keyParts[1..]);
      keyMap := keyMap["value" := Str(value)];
      if mainKey == "BEGIN" {
        stack := stack + [current];
        current := map[];
      } else if mainKey == "END" {
        var parent: map<string, Value> := map[];
        if |stack| > 0 {
          parent := stack[|stack| - 1];
          stack := stack[..|stack| - 1];
        }
        var entry := Mapping(current);
        if value in parent && parent[value].Sequence? {
          parent := parent[value := Sequence(parent[value].items + [entry])];
        } else if value in parent {
          parent := parent[value := Sequence([parent[value], entry])];
        } else {
          parent := parent[value := entry];
        }
        current := parent;
        assert Parser(stack, current) == Close(before, value);
      } else if |keyMap| == 1 {
        current := current[mainKey := Str(value)];
      } else {
        current := current[mainKey := Mapping(keyMap)];
      }
      assert Parser(stack, current) == Step(before, line);
    }
    assert lines[i..] == [];
    v := Mapping(current);
  }

  /** Whitespace-only lines, and lines without `:`, change nothing. */
  lemma SkippedLines(p: Parser, line: string)
    requires IsBlank(line) || ':' !in line
    ensures Step(p, line) == p
  {
    if !IsBlank(line) {
      assert ':' !in TrimStart(line) by {
        assert TrimStart(line) == line[|line| - |TrimStart(line)|..];
      }
    }
  }

  /** A line is blank exactly when what is left of it after `trim_start` is. */
  lemma BlankTrimmed(line: string)
    ensures IsBlank(line) <==> IsBlank(TrimStart(line))
  {
  }

  /** Leading whitespace is ignored: a line reads as it does with that whitespace removed. */
  lemma LeadingWhitespaceIgnored(p: Parser, line: string)
    ensures Step(p, line) == Step(p, TrimStart(line))
  {
    var t := TrimStart(line);
    assert TrimStart(t) == t;
    BlankTrimmed(line);
  }

  /**
   * A property line `name:value` whose name has neither `;` nor `:` stores the value
   * as a plain string under that name, everything after the first `:` included.
   */
  lemma PlainProperty(p: Parser, name: string, value: string)
    requires name != [] && !IsSpace(name[0]) && ':' !in name && ';' !in name
    requires name != "BEGIN" && name != "END"
    ensures Step(p, name + ":" + value) == Parser(p.stack, p.current[name := Str(value)])
  {
    StepContentLine(p, name, value);
    ApplyName(p, name, value);
    assert Params([])["value" := Str(value)] == map["value" := Str(value)];
  }

  /** The parameters of `name;param`: `Split` gives the name and the one parameter. */
  lemma OneParameter(name: string, param: string)
    requires ';' !in name && ';' !in param
    ensures Split(name + ";" + param, ';') == [name, param]
  {
    SplitAppend(name, param, ';');
    SplitNoSeparator(param, ';');
    assert name + ";" + param == name + [';'] + param;
  }

  /** Characters of `a + b` come from `a` or from `b`. */
  lemma NotInConcat(a: string, b: string, c: char)
    requires c !in a && c !in b
    ensures c !in a + b
  {
    assert forall i :: 0 <= i < |a + b| ==> (a + b)[i] in a || (a + b)[i] in b by {
      forall i | 0 <= i < |a + b|
        ensures (a + b)[i] in a || (a + b)[i] in b
      {
        if i < |a| {
          assert (a + b)[i] == a[i];
        } else {
          assert (a + b)[i] == b[i - |a|];
        }
      }
    }
  }

  /**
   * `name;k=v:value`: a parameter cut at its first `=`, other than `value`, makes the
   * property a map of its parameters and its value.
   */
  lemma PropertyWithParameter(p: Parser, name: string, k: string, v: string, value: string)
    requires name != [] && !IsSpace(name[0]) && ':' !in name && ';' !in name
    requires name != "BEGIN" && name != "END"
    requires ':' !in k && ';' !in k && '=' !in k && k != "value"
    requires ':' !in v && ';' !in v
    ensures Step(p, name + ";" + k + "=" + v + ":" + value)
         == Parser(p.stack, p.current[name := Mapping(map[k := Str(v), "value" := Str(value)])])
  {
    var param := k + "=" + v;
    var rawKey := name + ";" + param;
    NotInConcat(k, "=", ':');
    NotInConcat(k + "=", v, ':');
    NotInConcat(k, "=", ';');
    NotInConcat(k + "=", v, ';');
    NotInConcat(name, ";", ':');
    NotInConcat(name + ";", param, ':');
    assert rawKey[0] == name[0];
    StepContentLine(p, rawKey, value);
    assert name + ";" + k + "=" + v + ":" + value == rawKey + ":" + value;
    OneParameter(name, param);
    assert [name, param][1..] == [param];
    ParameterValue(k, v, value);
  }

  /** The value of a property with the one parameter `k=v`, `k` not being `value`. */
  lemma ParameterValue(k: string, v: string, value: string)
    requires '=' !in k && k != "value"
    ensures PropertyValue([k + "=" + v], value) == Mapping(map[k := Str(v), "value" := Str(value)])
  {
    var param := k + "=" + v;
    SplitOnceAt(k, v, '=');
    assert k + "=" + v == k + ['='] + v;
    assert [param][..0] == [];
    assert Params([param]) == map[k := Str(v)];
    var keyMap := map[k := Str(v), "value" := Str(value)];
    assert keyMap.Keys == {k, "value"};
    assert |keyMap| == 2;
  }

  /** A parameter without `=` is dropped: the property stays a plain string. */
  lemma ParameterWithoutEqualsDropped(p: Parser, name: string, junk: string, value: string)
    requires name != [] && !IsSpace(name[0]) && ':' !in name && ';' !in name
    requires name != "BEGIN" && name != "END"
    requires ':' !in junk && ';' !in junk && '=' !in junk
    ensures Step(p, name + ";" + junk + ":" + value) == Parser(p.stack, p.current[name := Str(value)])
  {
    var rawKey := name + ";" + junk;
    NotInConcat(name, ";", ':');
    NotInConcat(name + ";", junk, ':');
    assert rawKey[0] == name[0];
    StepContentLine(p, rawKey, value);
    assert name + ";" + junk + ":" + value == rawKey + ":" + value;
    OneParameter(name, junk);
    assert [name, junk][1..] == [junk] && [junk][..0] == [];
    assert Params([junk]) == map[];
    assert map[]["value" := Str(value)] == map["value" := Str(value)];
  }

  /** A property named twice in one component keeps the later value. */
  lemma LastPropertyWins(p: Parser, name: string, first: string, second: string)
    requires name != [] && !IsSpace(name[0]) && ':' !in name && ';' !in name
    requires name != "BEGIN" && name != "END"
    ensures var q := Run(p, [name + ":" + first, name + ":" + second]);
      name in q.current && q.current[name] == Str(second)
  {
    var lines := [name + ":" + first, name + ":" + second];
    PlainProperty(p, name, first);
    var p1 := Step(p, lines[0]);
    PlainProperty(p1, name, second);
    RunTwo(p, lines[0], lines[1]);
  }

  /** `BEGIN:` with any value opens a new, empty component above the current one. */
  lemma BeginOpens(p: Parser, b: string)
    ensures Step(p, "BEGIN:" + b) == Parser(p.stack + [p.current], map[])
  {
    assert "BEGIN:" + b == "BEGIN" + ":" + b;
    StepContentLine(p, "BEGIN", b);
    ApplyName(p, "BEGIN", b);
  }

  /** `END:key` closes the current component into the enclosing one, or into an empty one when there is none. */
  lemma EndCloses(p: Parser, key: string)
    ensures Step(p, "END:" + key) == Close(p, key)
  {
    assert "END:" + key == "END" + ":" + key;
    StepContentLine(p, "END", key);
    ApplyName(p, "END", key);
  }

  /** `END` with nothing open closes the current map into a new, empty parent. */
  lemma EndWithoutBegin(current: map<string, Value>, key: string)
    ensures Step(Parser([], current), "END:" + key) == Parser([], map[key := Mapping(current)])
  {
    EndCloses(Parser([], current), key);
  }

  /**
   * A component: `BEGIN`, lines that leave the nesting as they found it, and
   * `END:key`, stores the map those lines built under `key` in the enclosing map.
   */
  lemma ComponentAttached(p: Parser, b: string, body: seq<string>, key: string, inner: map<string, Value>)
    requires Run(Parser(p.stack + [p.current], map[]), body) == Parser(p.stack + [p.current], inner)
    ensures Run(p, ["BEGIN:" + b] + body + ["END:" + key]) == Parser(p.stack, Attach(p.current, key, Mapping(inner)))
  {
    var begin, end := "BEGIN:" + b, "END:" + key;
    var begun := Parser(p.stack + [p.current], map[]);
    var closing := Parser(p.stack + [p.current], inner);
    RunConcat(p, [begin] + body, [end]);
    RunConcat(p, [begin], body);
    RunOne(p, begin);
    BeginOpens(p, b);
    RunOne(closing, end);
    EndCloses(closing, key);
    assert (p.stack + [p.current])[..|p.stack|] == p.stack;
  }

  /** Reading one line is one step. */
  lemma RunOne(p: Parser, line: string)
    ensures Run(p, [line]) == Step(p, line)
  {
    assert [line][1..] == [];
  }

  /** Reading two lines is two steps. */
  lemma RunTwo(p: Parser, first: string, second: string)
    ensures Run(p, [first, second]) == Step(Step(p, first), second)
  {
    assert [first, second][1..] == [second];
    RunOne(Step(p, first), second);
  }

  /** The maps `entries` attached under `key` one after the other. */
  function AttachAll(parent: map<string, Value>, key: string, entries: seq<map<string, Value>>): map<string, Value>
    decreases |entries|
  {
    if entries == [] then parent
    else Attach(AttachAll(parent, key, entries[..|entries| - 1]), key, Mapping(entries[|entries| - 1]))
  }

  /**
   * Components of the same name closed one after another under a parent that had
   * none are collected into a sequence, in the order they were closed.
   */
  lemma {:induction false} RepeatedComponents(parent: map<string, Value>, key: string, entries: seq<map<string, Value>>)
    requires key !in parent && |entries| >= 2
    ensures AttachAll(parent, key, entries)
         == parent[key := Sequence(seq(|entries|, i requires 0 <= i < |entries| => Mapping(entries[i])))]
    decreases |entries|
  {
    var n := |entries|;
    var items := seq(n, i requires 0 <= i < n => Mapping(entries[i]));
    if n == 2 {
      assert entries[..1][..0] == [];
      assert AttachAll(parent, key, entries[..1]) == parent[key := Mapping(entries[0])];
      assert items == [Mapping(entries[0]), Mapping(entries[1])];
    } else {
      RepeatedComponents(parent, key, entries[..n - 1]);
      assert entries[..n - 1][..n - 2] == entries[..n - 2];
      assert items == seq(n - 1, i requires 0 <= i < n - 1 => Mapping(entries[..n - 1][i])) + [Mapping(entries[n - 1])];
    }
  }

  /**
   * What the parser returns is the current map only: content before a `BEGIN` that
   * is never closed is dropped from the result.
   */
  lemma UnclosedBeginDropsEnclosing(p: Parser, b: string, name: string, value: string)
    requires name != [] && !IsSpace(name[0]) && ':' !in name && ';' !in name
    requires name != "BEGIN" && name != "END"
    ensures Run(p, ["BEGIN:" + b, name + ":" + value]).current == map[name := Str(value)]
  {
    var lines := ["BEGIN:" + b, name + ":" + value];
    BeginOpens(p, b);
    var p1 := Step(p, lines[0]);
    PlainProperty(p1, name, value);
    RunTwo(p, lines[0], lines[1]);
  }
}
