/**
 * The settings file: `key=value` lines, `;` and `#` comments, optional quotes around values.
 * `loadConfig` (main.js:27-51) reads the text, parses it line by line into a fresh dictionary
 * and replaces the current settings with it; reading the file is an input of the model.
 */
module Config {
  import opened Values
  import opened Text

  datatype Entry = Entry(key: string, value: string)

  /**
   * A plain JavaScript object treats `__proto__` as its prototype accessor: assigning a string
   * to it changes nothing, so this key never appears among the settings.
   */
  const ProtoKey: string := "__proto__"

  /** A trimmed line that is blank or a comment. */
  predicate IsComment(line: string) {
    line == [] || line[0] == ';' || line[0] == '#'
  }

  /** The index of the first `=` in `s`, or `|s|` when there is none. */
  function FirstEquals(s: string): (i: nat)
    ensures i <= |s|
    ensures forall k :: 0 <= k < i ==> s[k] != '='
    ensures i < |s| ==> s[i] == '='
  {
    if s == [] || s[0] == '=' then 0 else 1 + FirstEquals(s[1..])
  }

  /**
   * The regular expression /^([^=]+)=(.*)$/ on one line: at least one character before the first
   * `=`, and no line terminator after it (`.` does not match one). Yields the two groups.
   */
  function MatchKeyValue(line: string): (m: Option<(string, string)>)
    ensures m.Some? ==> line != [] && m.value.0 != [] && m.value.0[0] == line[0]
  {
    var i := FirstEquals(line);
    if i == 0 || i == |line| then None
    else if HasLineTerminator(line[i + 1..]) then None
    else Some((line[..i], line[i + 1..]))
  }

  function HasLineTerminator(s: string): (b: bool)
    ensures b <==> exists k :: 0 <= k < |s| && IsLineTerminator(s[k])
  {
    s != [] && (IsLineTerminator(s[0]) || HasLineTerminator(s[1..]))
  }

  /** Text enclosed in a matching pair of double or single quotes (one quote character counts as both ends). */
  predicate IsQuoted(v: string) {
    |v| >= 1 && ((v[0] == '"' && v[|v| - 1] == '"') || (v[0] == '\'' && v[|v| - 1] == '\''))
  }

  /** `value.slice(1, -1)` for a quoted value; a lone quote character becomes empty. */
  function Unquote(v: string): (r: string)
    ensures IsQuoted(v) ==> |r| == if |v| >= 2 then |v| - 2 else 0
    ensures IsQuoted(v) && |v| >= 2 ==> v == [v[0]] + r + [v[0]]
    ensures !IsQuoted(v) ==> r == v
  {
    if IsQuoted(v) then (if |v| >= 2 then v[1..|v| - 1] else []) else v
  }

  /** What one line of the file contributes: nothing, or a key and its value. */
  function ParseLine(raw: string): (r: Option<Entry>)
    ensures IsComment(Trim(raw)) ==> r.None?
    ensures r.Some? ==> r.value.key != [] && Trimmed(r.value.key)
  {
    var line := Trim(raw);
    if IsComment(line) then None
    else
      match MatchKeyValue(line)
      case None => None
      case Some((k, v)) =>
        assert Trim(k) != [] by { TrimNonEmpty(k); }
        Some(Entry(Trim(k), Unquote(Trim(v))))
  }

  /** `parsed[key] = value` on a plain object. */
  function Assign(m: map<string, string>, key: string, value: string): map<string, string> {
    if key != ProtoKey then m[key := value] else m
  }

  /** Storing a pair sets that key to that value and leaves every other key as it was; `__proto__` changes nothing. */
  lemma AssignEffect(m: map<string, string>, key: string, value: string)
    ensures key != ProtoKey ==> key in Assign(m, key, value) && Assign(m, key, value)[key] == value
    ensures key == ProtoKey ==> Assign(m, key, value) == m
    ensures forall k :: k != key ==> (k in Assign(m, key, value) <==> k in m)
    ensures forall k :: k != key && k in m ==> Assign(m, key, value)[k] == m[k]
  {
  }

  /** Storing what one line contributes. */
  function Store(m: map<string, string>, e: Option<Entry>): map<string, string> {
    if e.Some? then Assign(m, e.value.key, e.value.value) else m
  }

  /** The dictionary after the lines' contributions have been stored in order. */
  function Collect(entries: seq<Option<Entry>>): map<string, string> {
    if entries == [] then map[]
    else Store(Collect(entries[..|entries| - 1]), entries[|entries| - 1])
  }

  /** What each line contributes, in order. */
  function Entries(lines: seq<string>): (r: seq<Option<Entry>>)
    ensures |r| == |lines|
  {
    seq(|lines|, i requires 0 <= i < |lines| => ParseLine(lines[i]))
  }

  /** The settings a file with this text yields. */
  function ParseConfig(text: string): map<string, string> {
    Collect(Entries(SplitLines(text)))
  }

  /** The line-by-line loop of `loadConfig`: each line's entry, if any, is stored in `parsed`. */
  method Parse(text: string) returns (parsed: map<string, string>)
    ensures parsed == ParseConfig(text)
  {
    var lines := SplitLines(text);
    ghost var entries := Entries(lines);
    parsed := map[];
    var i := 0;
    while i < |lines|
      invariant 0 <= i <= |lines|
      invariant parsed == Collect(entries[..i])
    {
      CollectStep(entries, i);
      var entry := ParseLine(lines[i]);
      if entry.Some? {
        parsed := Assign(parsed, entry.value.key, entry.value.value);
      }
      i := i + 1;
    }
    assert entries[..|lines|] == entries;
  }

  /** `ParseLine` is the trim, match, trim and unquote steps of the loop body. */
  lemma ParseLineSteps(raw: string, key: string, value: string)
    requires !IsComment(Trim(raw))
    requires MatchKeyValue(Trim(raw)).Some?
    requires key == Trim(MatchKeyValue(Trim(raw)).value.0)
    requires value == Unquote(Trim(MatchKeyValue(Trim(raw)).value.1))
    ensures ParseLine(raw) == Some(Entry(key, value))
  {
  }

  lemma CollectStep(entries: seq<Option<Entry>>, i: nat)
    requires i < |entries|
    ensures Collect(entries[..i + 1]) == Store(Collect(entries[..i]), entries[i])
  {
    assert entries[..i + 1][..i] == entries[..i];
  }

  /** True when this contribution sets key `k`. */
  predicate Defines(e: Option<Entry>, k: string) {
    e.Some? && e.value.key == k
  }

  /** Every setting comes from some line that defines it, and `__proto__` is never one. */
  lemma {:induction false} KeyOrigin(entries: seq<Option<Entry>>, k: string)
    requires k in Collect(entries)
    ensures k != ProtoKey
    ensures exists i :: 0 <= i < |entries| && Defines(entries[i], k)
  {
    var init := entries[..|entries| - 1];
    if Defines(entries[|entries| - 1], k) && k != ProtoKey {
    } else {
      KeyOrigin(init, k);
      var i :| 0 <= i < |init| && Defines(init[i], k);
      assert entries[i] == init[i];
    }
  }

  /** The last line that defines a key decides its value: later duplicates overwrite earlier ones. */
  lemma {:induction false} LastDefinitionWins(entries: seq<Option<Entry>>, i: nat, k: string, v: string)
    requires i < |entries|
    requires entries[i] == Some(Entry(k, v)) && k != ProtoKey
    requires forall j :: i < j < |entries| ==> !Defines(entries[j], k)
    ensures k in Collect(entries) && Collect(entries)[k] == v
  {
    var init := entries[..|entries| - 1];
    if i < |entries| - 1 {
      assert !Defines(entries[|entries| - 1], k);
      forall j | i < j < |init| ensures !Defines(init[j], k) {
        assert init[j] == entries[j];
      }
      LastDefinitionWins(init, i, k, v);
    }
  }

  /** A line that yields nothing (blank, comment, no usable `=`) can be dropped without changing the settings. */
  lemma {:induction false} IgnoredLine(before: seq<Option<Entry>>, after: seq<Option<Entry>>)
    ensures Collect(before + [None] + after) == Collect(before + after)
  {
    if after == [] {
      assert (before + [None] + after)[..|before|] == before;
      assert before + after == before;
    } else {
      var init := after[..|after| - 1];
      IgnoredLine(before, init);
      assert (before + [None] + after)[..|before| + |after|] == before + [None] + init;
      assert (before + after)[..|before| + |after| - 1] == before + init;
    }
  }

  /** The key-value pattern splits `k=v` back into `k` and `v`. */
  lemma MatchAfterKey(k: string, v: string)
    requires k != [] && '=' !in k && !HasLineTerminator(v)
    ensures MatchKeyValue(k + "=" + v) == Some((k, v))
  {
    var line := k + "=" + v;
    FirstEqualsAfter(k, v);
    assert line[..|k|] == k && line[|k| + 1..] == v;
  }

  /** A trimmed line that is not a comment and matches the pattern yields its trimmed key and unquoted value. */
  lemma ParseLineOf(line: string, k: string, v: string)
    requires Trim(line) == line && !IsComment(line)
    requires MatchKeyValue(line) == Some((k, v))
    requires Trim(k) == k && Trim(v) == v
    ensures ParseLine(line) == Some(Entry(k, Unquote(v)))
  {
    ParseLineSteps(line, k, Unquote(v));
  }

  /** `k=v` with a trimmed key that does not start a comment is a trimmed, non-comment line. */
  lemma KeyValueLine(k: string, v: string)
    requires k != [] && Trimmed(k) && k[0] != ';' && k[0] != '#' && Trimmed(v)
    ensures Trim(k + "=" + v) == k + "=" + v && !IsComment(k + "=" + v)
  {
    var line := k + "=" + v;
    assert line[0] == k[0];
    assert v != [] ==> line[|line| - 1] == v[|v| - 1];
    TrimOfTrimmed(line);
  }

  /** A line `k=q` with a usable key and a trimmed value without line breaks yields `k` and the unquoted `q`. */
  lemma KeyValueParsed(k: string, q: string)
    requires k != [] && Trimmed(k) && '=' !in k && k[0] != ';' && k[0] != '#'
    requires Trimmed(q) && !HasLineTerminator(q)
    ensures ParseLine(k + "=" + q) == Some(Entry(k, Unquote(q)))
  {
    KeyValueLine(k, q);
    MatchAfterKey(k, q);
    TrimOfTrimmed(k);
    TrimOfTrimmed(q);
    ParseLineOf(k + "=" + q, k, q);
  }

  /** Writing `key=value` and reading it back gives the same pair. */
  lemma KeyValueRoundTrip(k: string, v: string)
    requires k != [] && Trimmed(k) && '=' !in k && k[0] != ';' && k[0] != '#'
    requires Trimmed(v) && !IsQuoted(v) && !HasLineTerminator(v)
    ensures ParseLine(k + "=" + v) == Some(Entry(k, v))
  {
    KeyValueParsed(k, v);
  }

  /** A double-quoted text with no line break: trimmed, free of line terminators, and unquoted back to the text. */
  lemma QuotedText(v: string)
    requires !HasLineTerminator(v)
    ensures var q := "\"" + v + "\"";
      Trimmed(q) && !HasLineTerminator(q) && Unquote(q) == v
  {
    var q := "\"" + v + "\"";
    assert q[1..|q| - 1] == v;
    assert forall j :: 1 <= j < |q| - 1 ==> q[j] == v[j - 1];
  }

  /** A value written between double quotes comes back without them, inner spaces and all. */
  lemma QuotedValueRoundTrip(k: string, v: string)
    requires k != [] && Trimmed(k) && '=' !in k && k[0] != ';' && k[0] != '#'
    requires !HasLineTerminator(v)
    ensures ParseLine(k + "=" + ("\"" + v + "\"")) == Some(Entry(k, v))
  {
    QuotedText(v);
    KeyValueParsed(k, "\"" + v + "\"");
  }

  /** A match is the line cut at its first `=`: a non-empty key part without `=`, and a value part without line breaks. */
  lemma MatchShape(line: string)
    requires MatchKeyValue(line).Some?
    ensures var (k, v) := MatchKeyValue(line).value;
      line == k + "=" + v && k != [] && '=' !in k && !HasLineTerminator(v)
  {
    var i := FirstEquals(line);
    assert line == line[..i] + "=" + line[i + 1..];
  }

  /** A line without `=`, or whose trimmed text starts with `=`, has no usable key and adds nothing. */
  lemma NoKeyIgnored(raw: string)
    requires '=' !in raw || (Trim(raw) != [] && Trim(raw)[0] == '=')
    ensures ParseLine(raw).None?
  {
    var line := Trim(raw);
    if '=' !in raw && '=' in line {
      TrimInside(raw, '=');
    }
    assert FirstEquals(line) == 0 || FirstEquals(line) == |line|;
  }

  /**
   * `key = value` with white space around the line and around `=`: the key and the value come back
   * trimmed, and the value unquoted.
   */
  lemma PaddedKeyValue(pre: string, k: string, sp1: string, sp2: string, v: string, post: string)
    requires AllSpace(pre) && AllSpace(sp1) && AllSpace(sp2) && AllSpace(post)
    requires k != [] && Trimmed(k) && '=' !in k && k[0] != ';' && k[0] != '#'
    requires v != [] && Trimmed(v) && !HasLineTerminator(sp2 + v)
    ensures ParseLine(pre + k + sp1 + "=" + sp2 + v + post) == Some(Entry(k, Unquote(v)))
  {
    PaddedLine(pre, k, sp1, sp2, v, post);
    PaddedMatch(k, sp1, sp2, v);
    PaddedParts(k, sp1, sp2, v);
    ParsedFrom(pre + k + sp1 + "=" + sp2 + v + post, k + sp1 + "=" + (sp2 + v), k + sp1, sp2 + v, k, v);
  }

  /** Both sides of the `=` trim back to the key and the value. */
  lemma PaddedParts(k: string, sp1: string, sp2: string, v: string)
    requires AllSpace(sp1) && AllSpace(sp2) && Trimmed(k) && Trimmed(v)
    ensures Trim(k + sp1) == k && Trim(sp2 + v) == v
  {
    assert [] + k + sp1 == k + sp1;
    TrimPadded([], k, sp1);
    assert sp2 + v + [] == sp2 + v;
    TrimPadded(sp2, v, []);
  }

  /** A line that trims to a non-comment `line`, matched into parts that trim to `k` and `v`, yields `k` and the unquoted `v`. */
  lemma ParsedFrom(raw: string, line: string, key: string, value: string, k: string, v: string)
    requires Trim(raw) == line && !IsComment(line)
    requires MatchKeyValue(line) == Some((key, value))
    requires Trim(key) == k && Trim(value) == v
    ensures ParseLine(raw) == Some(Entry(k, Unquote(v)))
  {
  }

  /** The padded line trims to `k + sp1 + "=" + sp2 + v`, which is not a comment. */
  lemma PaddedLine(pre: string, k: string, sp1: string, sp2: string, v: string, post: string)
    requires AllSpace(pre) && AllSpace(post)
    requires k != [] && Trimmed(k) && k[0] != ';' && k[0] != '#'
    requires v != [] && Trimmed(v)
    ensures var line := k + sp1 + "=" + (sp2 + v);
      Trim(pre + k + sp1 + "=" + sp2 + v + post) == line && !IsComment(line)
  {
    var line := k + sp1 + "=" + (sp2 + v);
    assert pre + k + sp1 + "=" + sp2 + v + post == pre + line + post;
    assert line[0] == k[0] && line[|line| - 1] == v[|v| - 1];
    TrimPadded(pre, line, post);
  }

  /** The pattern cuts the padded line at its `=`, keeping the spaces on either side. */
  lemma PaddedMatch(k: string, sp1: string, sp2: string, v: string)
    requires AllSpace(sp1) && k != [] && '=' !in k && !HasLineTerminator(sp2 + v)
    ensures MatchKeyValue(k + sp1 + "=" + (sp2 + v)) == Some((k + sp1, sp2 + v))
  {
    assert '=' !in sp1 by {
      forall j | 0 <= j < |sp1| ensures sp1[j] != '=' { assert IsSpace(sp1[j]); }
    }
    assert '=' !in k + sp1;
    MatchAfterKey(k + sp1, sp2 + v);
  }

  lemma {:induction false} FirstEqualsAfter(k: string, rest: string)
    requires '=' !in k
    ensures FirstEquals(k + "=" + rest) == |k|
  {
    if k != [] {
      assert (k + "=" + rest)[1..] == k[1..] + "=" + rest;
      FirstEqualsAfter(k[1..], rest);
    }
  }
}
