/**
 * `renderTemplate(template, data)` of the OAuth server: one left-to-right pass of the
 * global regular expression `\{\{(\w+)\}\}`, each match replaced by `data[key]` when
 * that is a non-empty string and kept as it is otherwise.
 */
module Template {
  import opened Wrappers

  /** `\w`: an ASCII letter, a digit or `_`. */
  predicate IsWordChar(c: char)
  {
    'a' <= c <= 'z' || 'A' <= c <= 'Z' || '0' <= c <= '9' || c == '_'
  }

  predicate IsWord(s: string)
  {
    forall i :: 0 <= i < |s| ==> IsWordChar(s[i])
  }

  /** The length of the longest run of word characters at the start of `s`. */
  function WordRun(s: string): (n: nat)
    ensures n <= |s| && IsWord(s[..n])
    ensures n < |s| ==> !IsWordChar(s[n])
  {
    if s == [] || !IsWordChar(s[0]) then 0
    else
      var n := 1 + WordRun(s[1..]);
      assert s[..n] == [s[0]] + s[1..][..n - 1];
      n
  }

  /** The text a placeholder for `key` occupies. */
  function Placeholder(key: string): string
  {
    "{{" + key + "}}"
  }

  /**
   * The key of the match of `\{\{(\w+)\}\}` that starts at the beginning of `t`, if
   * there is one. `\w+` is greedy and `}` is not a word character, so the only
   * candidate is the whole run of word characters after `{{`.
   */
  function PlaceholderAt(t: string): (key: Option<string>)
    ensures key.Some? ==> |key.value| > 0 && IsWord(key.value)
                          && |Placeholder(key.value)| <= |t| && t[..|Placeholder(key.value)|] == Placeholder(key.value)
  {
    if |t| < 2 || t[0] != '{' || t[1] != '{' then None
    else
      var n := WordRun(t[2..]);
      if n > 0 && n + 4 <= |t| && t[n + 2] == '}' && t[n + 3] == '}' then
        assert t[2..n + 2] == t[2..][..n];
        assert t[..n + 4] == Placeholder(t[2..n + 2]);
        Some(t[2..n + 2])
      else None
  }

  /** `data[key] || match`: the value when it is present and not empty, the placeholder itself otherwise. */
  function Replacement(key: string, data: map<string, string>): string
  {
    if key in data && data[key] != "" then data[key] else Placeholder(key)
  }

  /** The rendered text: scanning resumes after each match, never inside what was inserted. */
  function Render(t: string, data: map<string, string>): string
    decreases |t|
  {
    match PlaceholderAt(t)
    case Some(key) => Replacement(key, data) + Render(t[|Placeholder(key)|..], data)
    case None => if t == [] then [] else [t[0]] + Render(t[1..], data)
  }

  /** A word between double braces is a placeholder, whatever follows it. */
  lemma PlaceholderFound(key: string, rest: string)
    requires |key| > 0 && IsWord(key)
    ensures PlaceholderAt(Placeholder(key) + rest) == Some(key)
  {
    var t := Placeholder(key) + rest;
    var n := |key|;
    assert t[2..][..n] == key && t[2..][n] == '}';
    WordRunOfWord(key, t[2..]);
    assert t[n + 2] == '}' && t[n + 3] == '}' && t[2..n + 2] == key;
  }

  /** The run of word characters at the start of `s` is exactly `key` when `key` is followed by a non-word character. */
  lemma {:induction false} WordRunOfWord(key: string, s: string)
    requires IsWord(key) && |key| < |s| && s[..|key|] == key && !IsWordChar(s[|key|])
    ensures WordRun(s) == |key|
    decreases |key|
  {
    if key != [] {
      assert s[1..][..|key| - 1] == key[1..];
      WordRunOfWord(key[1..], s[1..]);
    }
  }

  /**
   * Each placeholder whose key has a non-empty value is replaced by that value, one
   * whose key is missing or empty stays verbatim, and the rest of the template is
   * rendered on its own: the inserted text is never scanned again.
   */
  lemma Substitution(key: string, rest: string, data: map<string, string>)
    requires |key| > 0 && IsWord(key)
    ensures key in data && data[key] != "" ==> Render(Placeholder(key) + rest, data) == data[key] + Render(rest, data)
    ensures key !in data || data[key] == "" ==>
      Render(Placeholder(key) + rest, data) == Placeholder(key) + Render(rest, data)
  {
    PlaceholderFound(key, rest);
    assert (Placeholder(key) + rest)[|Placeholder(key)|..] == rest;
  }

  /**
   * A substituted value is inserted as it is, never scanned for placeholders of its
   * own, whatever it holds and whatever the data says about its keys.
   */
  lemma InsertedValueNotRescanned(key: string, data: map<string, string>)
    requires |key| > 0 && IsWord(key) && key in data && data[key] != ""
    ensures Render(Placeholder(key), data) == data[key]
  {
    Substitution(key, "", data);
    assert Placeholder(key) + "" == Placeholder(key);
    assert data[key] + "" == data[key];
  }

  /** For instance, `{{a}}` with `a` set to `{{b}}` renders as `{{b}}` even when `b` has a value. */
  lemma InsertedPlaceholderKept()
    ensures Render("{{a}}", map["a" := "{{b}}", "b" := "x"]) == "{{b}}"
  {
    assert Placeholder("a") == "{{a}}";
    InsertedValueNotRescanned("a", map["a" := "{{b}}", "b" := "x"]);
  }

  /** Text with no match anywhere is returned unchanged. */
  lemma {:induction false} NoPlaceholderIdentity(t: string, data: map<string, string>)
    requires forall i :: 0 <= i <= |t| ==> PlaceholderAt(t[i..]).None?
    ensures Render(t, data) == t
    decreases |t|
  {
    assert t[0..] == t;
    if t != [] {
      forall i | 0 <= i <= |t[1..]|
        ensures PlaceholderAt(t[1..][i..]).None?
      {
        assert t[1..][i..] == t[i + 1..];
      }
      NoPlaceholderIdentity(t[1..], data);
    }
  }

  /** With no values at all, every placeholder stays verbatim and the template comes back unchanged. */
  lemma {:induction false} EmptyDataIdentity(t: string)
    ensures Render(t, map[]) == t
    decreases |t|
  {
    match PlaceholderAt(t)
    case Some(key) =>
      var n := |Placeholder(key)|;
      EmptyDataIdentity(t[n..]);
      assert t == t[..n] + t[n..];
    case None =>
      if t != [] {
        EmptyDataIdentity(t[1..]);
      }
  }

  /** A key written with spaces, as in `{{ name }}`, is not a placeholder. */
  lemma SpacedKeyNotSubstituted(data: map<string, string>)
    ensures Render("{{ name }}", data) == "{{ name }}"
  {
    var t := "{{ name }}";
    forall i | 0 <= i <= |t|
      ensures PlaceholderAt(t[i..]).None?
    {
      if i == 0 {
        assert WordRun(t[2..]) == 0;
      } else if i < |t| - 1 {
        assert t[i..][1] != '{';
      }
    }
    NoPlaceholderIdentity(t, data);
  }
}
