/**
 The Python string operations the core relies on, over `seq<char>`:
 `startswith`, `endswith`, the `in` substring test, `strip()`, `split(sep)`
 and `sep.join(parts)`.
 */
module Strings {

  /** `s.startswith(p)` */
  predicate StartsWith(s: string, p: string) {
    |p| <= |s| && s[..|p|] == p
  }

  /** `s.endswith(p)` */
  predicate EndsWith(s: string, p: string) {
    |p| <= |s| && s[|s| - |p|..] == p
  }

  /** `p` occurs in `s` starting at index `i`. */
  predicate OccursAt(s: string, p: string, i: int) {
    0 <= i && i + |p| <= |s| && s[i..i + |p|] == p
  }

  /** `p in s`: `p` is a substring of `s`. */
  predicate Contains(s: string, p: string) {
    exists i | 0 <= i <= |s| - |p| :: OccursAt(s, p, i)
  }

  /** A substring of a substring is a substring. */
  lemma ContainsTransitive(s: string, t: string, r: string)
    requires Contains(s, t) && Contains(t, r)
    ensures Contains(s, r)
  {
    var a :| 0 <= a <= |s| - |t| && OccursAt(s, t, a);
    var b :| 0 <= b <= |t| - |r| && OccursAt(t, r, b);
    assert forall k :: 0 <= k < |t| ==> t[k] == s[a + k];
    assert s[a + b..a + b + |r|] == r;
    assert OccursAt(s, r, a + b);
  }

  /** `c.isspace()`: the characters Python's argument-less `strip()` removes. */
  predicate IsSpace(c: char) {
    || c == ' '
    || ('\t' <= c <= '\r')
    || ('\U{1C}' <= c <= '\U{1F}')
    || c == '\U{85}' || c == '\U{A0}' || c == '\U{1680}'
    || ('\U{2000}' <= c <= '\U{200A}')
    || c == '\U{2028}' || c == '\U{2029}' || c == '\U{202F}'
    || c == '\U{205F}' || c == '\U{3000}'
  }

  /** `s.lstrip()`: the longest suffix of `s` that does not begin with white space. */
  function TrimLeft(s: string): (r: string)
    ensures |r| <= |s| && r == s[|s| - |r|..]
    ensures forall i :: 0 <= i < |s| - |r| ==> IsSpace(s[i])
    ensures r == [] || !IsSpace(r[0])
  {
    if |s| > 0 && IsSpace(s[0]) then
      var r := TrimLeft(s[1..]);
      assert forall i :: 1 <= i < |s| ==> s[i] == s[1..][i - 1];
      r
    else s
  }

  /** `s.rstrip()`: the longest prefix of `s` that does not end with white space. */
  function TrimRight(s: string): (r: string)
    ensures |r| <= |s| && r == s[..|r|]
    ensures forall i :: |r| <= i < |s| ==> IsSpace(s[i])
    ensures r == [] || !IsSpace(r[|r| - 1])
  {
    if |s| > 0 && IsSpace(s[|s| - 1]) then
      var r := TrimRight(s[..|s| - 1]);
      assert forall i :: 0 <= i < |s| - 1 ==> s[i] == s[..|s| - 1][i];
      r
    else s
  }

  /** `s.strip()` */
  function Strip(s: string): (r: string)
    ensures |r| <= |s| && Contains(s, r)
    ensures r == [] || (!IsSpace(r[0]) && !IsSpace(r[|r| - 1]))
  {
    var t := TrimLeft(s);
    var r := TrimRight(t);
    PrefixOfSuffixOccurs(s, t, r);
    r
  }

  /** A prefix `r` of a suffix `t` of `s` occurs in `s`, and `r` starts where `t` does. */
  lemma PrefixOfSuffixOccurs(s: string, t: string, r: string)
    requires |t| <= |s| && t == s[|s| - |t|..]
    requires |r| <= |t| && r == t[..|r|]
    ensures Contains(s, r)
    ensures r == [] || r[0] == t[0]
  {
    var i := |s| - |t|;
    assert s[i..i + |r|] == r;
    assert OccursAt(s, r, i);
  }

  /** A string without white space at either end is its own strip. */
  lemma StripOfTrimmed(s: string)
    requires s == [] || (!IsSpace(s[0]) && !IsSpace(s[|s| - 1]))
    ensures Strip(s) == s
  {
  }

  /**
   Appending white space to a trimmed, non-empty string does not change its strip.
   */
  lemma {:induction false} StripAppendSpace(t: string, c: char)
    requires t != [] && !IsSpace(t[0]) && !IsSpace(t[|t| - 1])
    requires IsSpace(c)
    ensures Strip(t + [c]) == t
  {
    var u := t + [c];
    assert TrimLeft(u) == u;
    assert u[..|u| - 1] == t;
    assert TrimRight(u) == TrimRight(t);
  }

  /** Leading white space goes. */
  lemma TrimLeftSpace(c: char, s: string)
    requires IsSpace(c)
    ensures TrimLeft([c] + s) == TrimLeft(s)
  {
    assert ([c] + s)[1..] == s;
  }

  /** An indented line of trimmed text, with its newline, strips to the text. */
  lemma StripIndentedLine(t: string)
    requires t != [] && !IsSpace(t[0]) && !IsSpace(t[|t| - 1])
    ensures Strip("  " + t + "\n") == t
  {
    var v := t + "\n";
    assert v[0] == t[0];
    assert TrimLeft(v) == v;
    StripAppendSpace(t, '\n');
    TrimLeftSpace(' ', v);
    TrimLeftSpace(' ', [' '] + v);
    assert "  " + t + "\n" == [' '] + ([' '] + v);
  }

  /** `sep.join(parts)` */
  function Join(parts: seq<string>, sep: string): string {
    if |parts| == 0 then ""
    else if |parts| == 1 then parts[0]
    else parts[0] + sep + Join(parts[1..], sep)
  }

  /** `''.join(parts)`: the text of a list of lines. */
  function Concat(parts: seq<string>): string {
    if |parts| == 0 then "" else parts[0] + Concat(parts[1..])
  }

  lemma {:induction false} ConcatAppend(a: seq<string>, b: seq<string>)
    ensures Concat(a + b) == Concat(a) + Concat(b)
  {
    if |a| == 0 {
      assert a + b == b;
    } else {
      assert (a + b)[1..] == a[1..] + b;
      ConcatAppend(a[1..], b);
    }
  }

  /**
   `s.split(sep)`: cut `s` at every occurrence of `sep`, scanning left to
   right and resuming after each cut, as Python does. The empty string splits
   into one empty piece.
   */
  function Split(s: string, sep: string): (r: seq<string>)
    requires |sep| > 0
    ensures |r| >= 1
    decreases |s|
  {
    if |s| < |sep| then [s]
    else if s[..|sep|] == sep then [""] + Split(s[|sep|..], sep)
    else
      var rest := Split(s[1..], sep);
      [[s[0]] + rest[0]] + rest[1..]
  }

  /** Prepending a part to a non-empty list of parts. */
  lemma JoinCons(x: string, parts: seq<string>, sep: string)
    requires |parts| >= 1
    ensures Join([x] + parts, sep) == x + sep + Join(parts, sep)
  {
    assert ([x] + parts)[1..] == parts;
  }

  /** A piece that cannot start an occurrence of `sep` is split off whole. */
  lemma {:induction false} SplitAfterPiece(e: string, sep: string, rest: string)
    requires |sep| > 0 && sep[0] !in e
    ensures Split(e + sep + rest, sep) == [e] + Split(rest, sep)
    decreases |e|
  {
    var s := e + sep + rest;
    if |e| == 0 {
      assert s == sep + rest;
      assert s[..|sep|] == sep;
      assert s[|sep|..] == rest;
    } else {
      assert s[0] == e[0] != sep[0];
      assert s[..|sep|] != sep;
      assert s[1..] == e[1..] + sep + rest;
      SplitAfterPiece(e[1..], sep, rest);
      assert [s[0]] + e[1..] == e;
    }
  }

  /** A string in which `sep` cannot start splits into itself. */
  lemma {:induction false} SplitWhole(e: string, sep: string)
    requires |sep| > 0 && sep[0] !in e
    ensures Split(e, sep) == [e]
    decreases |e|
  {
    if |e| < |sep| {
    } else {
      assert e[..|sep|][0] == e[0] != sep[0];
      SplitWhole(e[1..], sep);
      assert [e[0]] + e[1..] == e;
    }
  }

  /**
   Splitting a join gives back the parts, provided no part contains the
   separator's first character.
   */
  lemma {:induction false} SplitJoin(parts: seq<string>, sep: string)
    requires |sep| > 0 && |parts| >= 1
    requires forall i :: 0 <= i < |parts| ==> sep[0] !in parts[i]
    ensures Split(Join(parts, sep), sep) == parts
  {
    if |parts| == 1 {
      SplitWhole(parts[0], sep);
    } else {
      SplitJoin(parts[1..], sep);
      SplitAfterPiece(parts[0], sep, Join(parts[1..], sep));
      assert [parts[0]] + parts[1..] == parts;
    }
  }

  /** Number of occurrences of `c` in `s`. */
  function Count(s: string, c: char): nat {
    if |s| == 0 then 0 else (if s[0] == c then 1 else 0) + Count(s[1..], c)
  }

  lemma {:induction false} CountAppend(a: string, b: string, c: char)
    ensures Count(a + b, c) == Count(a, c) + Count(b, c)
  {
    if |a| == 0 {
      assert a + b == b;
    } else {
      assert (a + b)[1..] == a[1..] + b;
      CountAppend(a[1..], b, c);
    }
  }

  /** Splitting on a one-character separator gives one more piece than it has occurrences. */
  lemma {:induction false} SplitCount(s: string, c: char)
    ensures |Split(s, [c])| == Count(s, c) + 1
    decreases |s|
  {
    if |s| < 1 {
    } else if s[..1] == [c] {
      assert s[0] == c;
      SplitCount(s[1..], c);
    } else {
      assert s[0] != c;
      SplitCount(s[1..], c);
    }
  }
}
