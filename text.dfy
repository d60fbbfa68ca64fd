/** The JavaScript string operations the agent relies on: `trim`, `split` on one character and the line split `/\r?\n/`. */
module Text {

  /** WhiteSpace or LineTerminator in the sense of ECMAScript: the characters `trim` and `Number()` strip. */
  predicate IsSpace(c: char) {
    || ('\t' <= c <= '\r') || c == ' ' || c == '\U{00A0}' || c == '\U{1680}'
    || ('\U{2000}' <= c <= '\U{200A}') || ('\U{2028}' <= c <= '\U{2029}')
    || c == '\U{202F}' || c == '\U{205F}' || c == '\U{3000}' || c == '\U{FEFF}'
  }

  /** The characters a regular expression's `.` does not match. */
  predicate IsLineTerminator(c: char) {
    c == '\n' || c == '\r' || c == '\U{2028}' || c == '\U{2029}'
  }

  predicate AllSpace(s: string) {
    forall i :: 0 <= i < |s| ==> IsSpace(s[i])
  }

  /** True when `s` has no white space at either end, so `trim` leaves it alone. */
  predicate Trimmed(s: string) {
    s == [] || (!IsSpace(s[0]) && !IsSpace(s[|s| - 1]))
  }

  /** `String.prototype.trimStart`: drops the white space before the first other character. */
  function TrimStart(s: string): (r: string)
    ensures |r| <= |s| && r == s[|s| - |r|..]
    ensures r == [] || !IsSpace(r[0])
  {
    if s != [] && IsSpace(s[0]) then TrimStart(s[1..]) else s
  }

  /** `String.prototype.trimEnd`: drops the white space after the last other character. */
  function TrimEnd(s: string): (r: string)
    ensures |r| <= |s| && r == s[..|r|]
    ensures r == [] || !IsSpace(r[|r| - 1])
  {
    if s != [] && IsSpace(s[|s| - 1]) then TrimEnd(s[..|s| - 1]) else s
  }

  /** A string that starts with a character other than white space keeps it at the end too. */
  lemma {:induction false} TrimEndNonEmpty(s: string)
    requires s != [] && !IsSpace(s[0])
    ensures TrimEnd(s) != []
  {
    if |s| > 1 && IsSpace(s[|s| - 1]) {
      TrimEndNonEmpty(s[..|s| - 1]);
    }
  }

  /** `String.prototype.trim`. */
  function Trim(s: string): (r: string)
    ensures Trimmed(r)
    ensures |r| <= |s|
  {
    TrimEnd(TrimStart(s))
  }

  /** A string that starts with a character other than white space does not trim to nothing. */
  lemma TrimNonEmpty(s: string)
    requires s != [] && !IsSpace(s[0])
    ensures Trim(s) != []
  {
    assert TrimStart(s) == s;
    TrimEndNonEmpty(s);
  }

  /** `trim` only removes characters: whatever it keeps was in the text. */
  lemma TrimInside(s: string, c: char)
    requires c in Trim(s)
    ensures c in s
  {
    var t := TrimStart(s);
    var r := TrimEnd(t);
    assert r == Trim(s);
    var j :| 0 <= j < |r| && r[j] == c;
    assert r[j] == t[j];
    assert t[j] == s[|s| - |t| + j];
  }

  lemma TrimOfTrimmed(s: string)
    requires Trimmed(s)
    ensures Trim(s) == s
  {
  }

  /** White space around a trimmed string is exactly what `trim` removes. */
  lemma {:induction false} TrimPadded(pre: string, s: string, post: string)
    requires AllSpace(pre) && AllSpace(post) && Trimmed(s)
    ensures Trim(pre + s + post) == s
  {
    if s == [] {
      assert pre + s + post == (pre + post) + [];
      TrimStartSpaces(pre + post, []);
    } else {
      assert pre + s + post == pre + (s + post);
      TrimStartSpaces(pre, s + post);
      TrimEndSpaces(s, post);
    }
  }

  lemma {:induction false} TrimStartSpaces(pre: string, s: string)
    requires AllSpace(pre)
    requires s == [] || !IsSpace(s[0])
    ensures TrimStart(pre + s) == s
  {
    if pre != [] {
      assert (pre + s)[1..] == pre[1..] + s;
      TrimStartSpaces(pre[1..], s);
    }
  }

  /** Leading white space goes; what follows, starting with another character, stays whole. */
  lemma TrimStartBefore(pre: string, s: string, rest: string)
    requires AllSpace(pre)
    requires s != [] && !IsSpace(s[0])
    ensures TrimStart(pre + s + rest) == s + rest
  {
    var t := s + rest;
    assert t[0] == s[0];
    assert pre + s + rest == pre + t;
    TrimStartSpaces(pre, t);
  }

  lemma {:induction false} TrimEndSpaces(s: string, post: string)
    requires AllSpace(post)
    requires s == [] || !IsSpace(s[|s| - 1])
    ensures TrimEnd(s + post) == s
  {
    if post != [] {
      assert (s + post)[..|s + post| - 1] == s + post[..|post| - 1];
      TrimEndSpaces(s, post[..|post| - 1]);
    } else {
      assert s + post == s;
    }
  }

  /** The inverse of `Split`: the parts with `sep` between them. */
  function Join(parts: seq<string>, sep: char): string {
    if parts == [] then []
    else if |parts| == 1 then parts[0]
    else parts[0] + [sep] + Join(parts[1..], sep)
  }

  /** `s.split(sep)` for a one-character separator: the maximal runs between separators, at least one. */
  function Split(s: string, sep: char): (r: seq<string>)
    ensures |r| >= 1
    ensures forall i :: 0 <= i < |r| ==> sep !in r[i]
    ensures Join(r, sep) == s
  {
    if s == [] then [[]]
    else
      var rest := Split(s[1..], sep);
      if s[0] == sep then
        assert ([[]] + rest)[1..] == rest;
        [[]] + rest
      else
        var r := [[s[0]] + rest[0]] + rest[1..];
        assert r[1..] == rest[1..];
        assert |rest| > 1 ==> Join(rest, sep) == rest[0] + [sep] + Join(rest[1..], sep);
        r
  }

  /** Splitting a string that does not contain the separator yields the string itself. */
  lemma {:induction false} SplitNoSeparator(a: string, sep: char)
    requires sep !in a
    ensures Split(a, sep) == [a]
  {
    if a != [] {
      SplitNoSeparator(a[1..], sep);
      assert [a[0]] + a[1..] == a;
    }
  }

  /** A separator-free prefix becomes the first part, glued onto the first part of the rest. */
  lemma {:induction false} SplitPrefix(a: string, rest: string, sep: char)
    requires sep !in a
    ensures Split(a + rest, sep) == [a + Split(rest, sep)[0]] + Split(rest, sep)[1..]
  {
    if a != [] {
      assert (a + rest)[1..] == a[1..] + rest;
      SplitPrefix(a[1..], rest, sep);
      assert [a[0]] + (a[1..] + Split(rest, sep)[0]) == a + Split(rest, sep)[0];
    } else {
      var r := Split(rest, sep);
      assert a + rest == rest && a + r[0] == r[0];
      assert [r[0]] + r[1..] == r;
    }
  }

  /** Split undoes Join when no part holds the separator. */
  lemma {:induction false} SplitJoin(parts: seq<string>, sep: char)
    requires |parts| >= 1
    requires forall i :: 0 <= i < |parts| ==> sep !in parts[i]
    ensures Split(Join(parts, sep), sep) == parts
  {
    if |parts| == 1 {
      SplitNoSeparator(parts[0], sep);
    } else {
      var tail := Join(parts[1..], sep);
      SplitJoin(parts[1..], sep);
      assert Split([sep] + tail, sep) == [[]] + parts[1..] by {
        assert ([sep] + tail)[1..] == tail;
      }
      assert parts[0] + [sep] + tail == parts[0] + ([sep] + tail);
      SplitPrefix(parts[0], [sep] + tail, sep);
      assert parts[0] + [] == parts[0];
      assert [parts[0]] + parts[1..] == parts;
    }
  }

  /** One line without the `\r` that a `\r\n` separator ends with. */
  function DropCarriageReturn(line: string): string {
    if line != [] && line[|line| - 1] == '\r' then line[..|line| - 1] else line
  }

  /** `s.split(/\r?\n/)`: split at every `\n`, and each piece followed by a `\n` loses one trailing `\r`. */
  function SplitLines(s: string): (r: seq<string>)
    ensures |r| == |Split(s, '\n')| >= 1
  {
    var parts := Split(s, '\n');
    seq(|parts|, i requires 0 <= i < |parts| =>
      if i < |parts| - 1 then DropCarriageReturn(parts[i]) else parts[i])
  }

  /** True when no line holds a `\n`. */
  predicate NoNewlines(lines: seq<string>) {
    forall i :: 0 <= i < |lines| ==> '\n' !in lines[i]
  }

  /** Every line but the last followed by `\r`, as in a file with `\r\n` line ends. */
  function WithCarriageReturns(lines: seq<string>): (r: seq<string>)
    ensures |r| == |lines|
  {
    seq(|lines|, i requires 0 <= i < |lines| => if i < |lines| - 1 then lines[i] + "\r" else lines[i])
  }

  /** Lines joined with `\n`, each line that is not the last free of a trailing `\r`, split back into the same lines. */
  lemma SplitLinesOfLf(lines: seq<string>)
    requires |lines| >= 1 && NoNewlines(lines)
    requires forall i :: 0 <= i < |lines| - 1 ==> lines[i] == [] || lines[i][|lines[i]| - 1] != '\r'
    ensures SplitLines(Join(lines, '\n')) == lines
  {
    SplitJoin(lines, '\n');
  }

  /** Lines joined with `\r\n` split back into the same lines: each `\r` before a `\n` is dropped, and only that one. */
  lemma SplitLinesOfCrlf(lines: seq<string>)
    requires |lines| >= 1 && NoNewlines(lines)
    ensures SplitLines(Join(WithCarriageReturns(lines), '\n')) == lines
  {
    var parts := WithCarriageReturns(lines);
    forall i | 0 <= i < |parts| ensures '\n' !in parts[i] {
      if i < |parts| - 1 {
        assert parts[i] == lines[i] + "\r";
      }
    }
    SplitJoin(parts, '\n');
    forall i | 0 <= i < |lines| - 1 ensures DropCarriageReturn(parts[i]) == lines[i] {
      assert parts[i][..|parts[i]| - 1] == lines[i];
    }
  }
}
