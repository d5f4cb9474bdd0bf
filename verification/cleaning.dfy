/**
 `_strip_special` and `_clean_response`: removing the quote and code-fence
 artifacts a language model wraps around generated code.
 */
module Cleaning {
  import opened Strings

  /**
   The prefix loop of `_strip_special`: each prefix, in list order, is removed
   once if the text, as it stands at that point, starts with it.
   */
  function StripPrefixes(s: string, prefixes: seq<string>): (r: string)
    ensures |r| <= |s| && r == s[|s| - |r|..]
  {
    if prefixes == [] then s
    else
      var p := prefixes[0];
      var t := if StartsWith(s, p) then s[|p|..] else s;
      StripPrefixes(t, prefixes[1..])
  }

  /**
   The suffix loop of `_strip_special`: each suffix, in list order, is removed
   once if the text currently ends with it. An empty suffix empties the text,
   because Python's `s[:-0]` is `s[:0]`.
   */
  function StripSuffixes(s: string, suffixes: seq<string>): (r: string)
    ensures |r| <= |s| && r == s[..|r|]
  {
    if suffixes == [] then s
    else StripSuffixes(DropSuffix(s, suffixes[0]), suffixes[1..])
  }

  /** One pass of the suffix loop: `s[:-len(x)]` when `s` ends with `x`. */
  function DropSuffix(s: string, x: string): (r: string)
    ensures |r| <= |s| && r == s[..|r|]
    ensures |x| > 0 ==> r == if EndsWith(s, x) then s[..|s| - |x|] else s
  {
    if !EndsWith(s, x) then s
    else if |x| == 0 then ""
    else s[..|s| - |x|]
  }

  /** `_strip_special(s, prefixes, suffixes)` */
  function StripSpecial(s: string, prefixes: seq<string>, suffixes: seq<string>): (r: string)
    ensures |r| <= |s|
    ensures Contains(s, r)
  {
    var t := StripPrefixes(s, prefixes);
    var r := StripSuffixes(t, suffixes);
    PrefixOfSuffixOccurs(s, t, r);
    r
  }

  const ResponsePrefixes: seq<string> := ["'", "```python", "```json"]
  const ResponseSuffixes: seq<string> := ["'", "```"]

  /** `_clean_response`: strip the listed artifacts, then white space. */
  function CleanResponse(response: string): (r: string)
    ensures |r| <= |response| && Contains(response, r)
    ensures r == [] || (!IsSpace(r[0]) && !IsSpace(r[|r| - 1]))
  {
    var t := StripSpecial(response, ResponsePrefixes, ResponseSuffixes);
    var r := Strip(t);
    ContainsTransitive(response, t, r);
    r
  }

  /**
   The prefixes the loop removed, in the order it removed them: a
   subsequence of the prefix list, read off the same walk as `StripPrefixes`.
   */
  function RemovedPrefixes(s: string, prefixes: seq<string>): seq<string> {
    if prefixes == [] then []
    else
      var p := prefixes[0];
      if StartsWith(s, p) then [p] + RemovedPrefixes(s[|p|..], prefixes[1..])
      else RemovedPrefixes(s, prefixes[1..])
  }

  /** `sub` is `full` with some entries left out, the others kept in order. */
  predicate IsSubsequence(sub: seq<string>, full: seq<string>) {
    if full == [] then sub == []
    else
      || (sub != [] && sub[0] == full[0] && IsSubsequence(sub[1..], full[1..]))
      || IsSubsequence(sub, full[1..])
  }

  /** The prefixes removed are taken from the list, each at most once, in list order. */
  lemma {:induction false} RemovedPrefixesInOrder(s: string, prefixes: seq<string>)
    ensures IsSubsequence(RemovedPrefixes(s, prefixes), prefixes)
  {
    if prefixes != [] {
      var p := prefixes[0];
      if StartsWith(s, p) {
        RemovedPrefixesInOrder(s[|p|..], prefixes[1..]);
        var rem := RemovedPrefixes(s[|p|..], prefixes[1..]);
        assert ([p] + rem)[0] == p && ([p] + rem)[1..] == rem;
      } else {
        RemovedPrefixesInOrder(s, prefixes[1..]);
      }
    }
  }

  /** The removed prefixes, concatenated, followed by the result, give back the input. */
  lemma {:induction false} RemovedThenRest(s: string, prefixes: seq<string>)
    ensures Concat(RemovedPrefixes(s, prefixes)) + StripPrefixes(s, prefixes) == s
  {
    if prefixes != [] {
      var p := prefixes[0];
      if StartsWith(s, p) {
        var t := s[|p|..];
        RemovedThenRest(t, prefixes[1..]);
        assert s == p + t;
        ConcatCons(p, RemovedPrefixes(t, prefixes[1..]), StripPrefixes(t, prefixes[1..]), t);
      } else {
        RemovedThenRest(s, prefixes[1..]);
      }
    }
  }

  /** One removed prefix in front of the rest. */
  lemma ConcatCons(p: string, rem: seq<string>, x: string, t: string)
    requires Concat(rem) + x == t
    ensures Concat([p] + rem) + x == p + t
  {
    assert ([p] + rem)[1..] == rem;
    assert Concat([p] + rem) == p + Concat(rem);
  }

  /**
   Prefix removal only takes text off the front: the input is the removed
   prefixes, concatenated, followed by the result, and the removed prefixes
   come from the list, each at most once, in list order.
   */
  lemma StripPrefixesRemovesInOrder(s: string, prefixes: seq<string>)
    ensures IsSubsequence(RemovedPrefixes(s, prefixes), prefixes)
    ensures Concat(RemovedPrefixes(s, prefixes)) + StripPrefixes(s, prefixes) == s
  {
    RemovedPrefixesInOrder(s, prefixes);
    RemovedThenRest(s, prefixes);
  }

  /**
   The suffixes the loop removed, in the order it removed them, read off the
   same walk as `StripSuffixes`.
   */
  function RemovedSuffixes(s: string, suffixes: seq<string>): seq<string> {
    if suffixes == [] then []
    else
      var x := suffixes[0];
      if EndsWith(s, x) then [x] + RemovedSuffixes(DropSuffix(s, x), suffixes[1..])
      else RemovedSuffixes(s, suffixes[1..])
  }

  /** `xs` back to front. */
  function Reversed(xs: seq<string>): (r: seq<string>)
    ensures |r| == |xs|
  {
    if xs == [] then [] else Reversed(xs[1..]) + [xs[0]]
  }

  /** The suffixes removed are taken from the list, each at most once, in list order. */
  lemma {:induction false} RemovedSuffixesInOrder(s: string, suffixes: seq<string>)
    ensures IsSubsequence(RemovedSuffixes(s, suffixes), suffixes)
  {
    if suffixes != [] {
      var x := suffixes[0];
      if EndsWith(s, x) {
        RemovedSuffixesInOrder(DropSuffix(s, x), suffixes[1..]);
        var rem := RemovedSuffixes(DropSuffix(s, x), suffixes[1..]);
        assert ([x] + rem)[0] == x && ([x] + rem)[1..] == rem;
      } else {
        RemovedSuffixesInOrder(s, suffixes[1..]);
      }
    }
  }

  /**
   With no empty suffix in the list, the result followed by the removed
   suffixes, last removed first, gives back the input.
   */
  lemma {:induction false} RestThenRemoved(s: string, suffixes: seq<string>)
    requires forall i :: 0 <= i < |suffixes| ==> suffixes[i] != ""
    ensures StripSuffixes(s, suffixes) + Concat(Reversed(RemovedSuffixes(s, suffixes))) == s
  {
    if suffixes != [] {
      var x := suffixes[0];
      assert forall i :: 0 <= i < |suffixes[1..]| ==> suffixes[1..][i] == suffixes[i + 1];
      if EndsWith(s, x) {
        var t := DropSuffix(s, x);
        RestThenRemoved(t, suffixes[1..]);
        DropSuffixSplits(s, x);
        ConcatSnoc(StripSuffixes(t, suffixes[1..]), RemovedSuffixes(t, suffixes[1..]), x, t);
      } else {
        RestThenRemoved(s, suffixes[1..]);
      }
    }
  }

  /** A non-empty suffix that was dropped goes back on the end. */
  lemma DropSuffixSplits(s: string, x: string)
    requires x != "" && EndsWith(s, x)
    ensures DropSuffix(s, x) + x == s
  {
  }

  /** One removed suffix behind the rest. */
  lemma ConcatSnoc(y: string, rem: seq<string>, x: string, t: string)
    requires y + Concat(Reversed(rem)) == t
    ensures y + Concat(Reversed([x] + rem)) == t + x
  {
    assert ([x] + rem)[1..] == rem;
    assert Reversed([x] + rem) == Reversed(rem) + [x];
    ConcatAppend(Reversed(rem), [x]);
    assert Concat([x]) == x;
  }

  /**
   Suffix removal only takes text off the end: with no empty suffix in the
   list, the input is the result followed by the removed suffixes, last
   removed first, and the removed suffixes come from the list, each at most
   once, in list order. (An empty suffix erases the text instead; see
   `EmptySuffixErases`.)
   */
  lemma StripSuffixesRemovesInOrder(s: string, suffixes: seq<string>)
    requires forall i :: 0 <= i < |suffixes| ==> suffixes[i] != ""
    ensures IsSubsequence(RemovedSuffixes(s, suffixes), suffixes)
    ensures StripSuffixes(s, suffixes) + Concat(Reversed(RemovedSuffixes(s, suffixes))) == s
  {
    RemovedSuffixesInOrder(s, suffixes);
    RestThenRemoved(s, suffixes);
  }

  /** Text that starts with no listed prefix and ends with no listed suffix is returned unchanged. */
  lemma {:induction false} StripSpecialNoAffix(s: string, prefixes: seq<string>, suffixes: seq<string>)
    requires forall i :: 0 <= i < |prefixes| ==> !StartsWith(s, prefixes[i])
    requires forall i :: 0 <= i < |suffixes| ==> !EndsWith(s, suffixes[i])
    ensures StripSpecial(s, prefixes, suffixes) == s
  {
    NoPrefix(s, prefixes);
    NoSuffix(s, suffixes);
  }

  lemma {:induction false} NoPrefix(s: string, prefixes: seq<string>)
    requires forall i :: 0 <= i < |prefixes| ==> !StartsWith(s, prefixes[i])
    ensures StripPrefixes(s, prefixes) == s
  {
    if prefixes != [] {
      assert forall i :: 0 <= i < |prefixes[1..]| ==> prefixes[1..][i] == prefixes[i + 1];
      NoPrefix(s, prefixes[1..]);
    }
  }

  lemma {:induction false} NoSuffix(s: string, suffixes: seq<string>)
    requires forall i :: 0 <= i < |suffixes| ==> !EndsWith(s, suffixes[i])
    ensures StripSuffixes(s, suffixes) == s
  {
    if suffixes != [] {
      assert forall i :: 0 <= i < |suffixes[1..]| ==> suffixes[1..][i] == suffixes[i + 1];
      NoSuffix(s, suffixes[1..]);
    }
  }

  /** A response with none of the artifacts is only stripped of white space. */
  lemma CleanResponseNoAffix(response: string)
    requires forall i :: 0 <= i < |ResponsePrefixes| ==> !StartsWith(response, ResponsePrefixes[i])
    requires forall i :: 0 <= i < |ResponseSuffixes| ==> !EndsWith(response, ResponseSuffixes[i])
    ensures CleanResponse(response) == Strip(response)
  {
    StripSpecialNoAffix(response, ResponsePrefixes, ResponseSuffixes);
  }

  /** An empty suffix in the list erases the whole text. */
  lemma EmptySuffixErases(s: string)
    ensures StripSpecial(s, [], [""]) == ""
  {
  }

  /** One step of the prefix loop. */
  lemma StripPrefixesStep(s: string, p: string, rest: seq<string>)
    ensures StripPrefixes(s, [p] + rest) == StripPrefixes(if StartsWith(s, p) then s[|p|..] else s, rest)
  {
    assert ([p] + rest)[0] == p && ([p] + rest)[1..] == rest;
  }

  /** One step of the suffix loop. */
  lemma StripSuffixesStep(s: string, x: string, rest: seq<string>)
    requires |x| > 0
    ensures StripSuffixes(s, [x] + rest) == StripSuffixes(if EndsWith(s, x) then s[..|s| - |x|] else s, rest)
  {
    assert ([x] + rest)[0] == x && ([x] + rest)[1..] == rest;
  }

  /** The prefix loop of `_clean_response`, one listed prefix at a time. */
  lemma ResponsePrefixSteps(s: string)
    ensures var t0 := if StartsWith(s, "'") then s[1..] else s;
            var t1 := if StartsWith(t0, "```python") then t0[9..] else t0;
            var t2 := if StartsWith(t1, "```json") then t1[7..] else t1;
            StripPrefixes(s, ResponsePrefixes) == t2
  {
    var t0 := if StartsWith(s, "'") then s[1..] else s;
    var t1 := if StartsWith(t0, "```python") then t0[9..] else t0;
    assert ResponsePrefixes == ["'"] + ["```python", "```json"];
    assert ["```python", "```json"] == ["```python"] + ["```json"];
    assert ["```json"] == ["```json"] + [];
    StripPrefixesStep(s, "'", ["```python", "```json"]);
    StripPrefixesStep(t0, "```python", ["```json"]);
    StripPrefixesStep(t1, "```json", []);
  }

  /** The suffix loop of `_clean_response`, one listed suffix at a time. */
  lemma ResponseSuffixSteps(s: string)
    ensures var t0 := if EndsWith(s, "'") then s[..|s| - 1] else s;
            var t1 := if EndsWith(t0, "```") then t0[..|t0| - 3] else t0;
            StripSuffixes(s, ResponseSuffixes) == t1
  {
    var t0 := if EndsWith(s, "'") then s[..|s| - 1] else s;
    assert ResponseSuffixes == ["'"] + ["```"];
    assert ["```"] == ["```"] + [];
    StripSuffixesStep(s, "'", ["```"]);
    StripSuffixesStep(t0, "```", []);
  }

  /** A newline on each side of a trimmed text is stripped away. */
  lemma StripNewlines(x: string)
    requires x != [] && !IsSpace(x[0]) && !IsSpace(x[|x| - 1])
    ensures Strip("\n" + x + "\n") == x
  {
    var u := "\n" + x + "\n";
    assert u[1..] == x + "\n";
    assert TrimLeft(u[1..]) == x + "\n";
    assert TrimLeft(u) == x + "\n";
    StripAppendSpace(x, '\n');
    assert TrimLeft(x + "\n") == x + "\n";
  }

  /** `_clean_response` as its two loops followed by the strip. */
  lemma CleanResponseSteps(response: string, t: string, u: string)
    requires StripPrefixes(response, ResponsePrefixes) == t
    requires StripSuffixes(t, ResponseSuffixes) == u
    ensures CleanResponse(response) == Strip(u)
  {
  }

  /** Text that does not begin with a backtick starts with neither code fence. */
  lemma NoFenceAtStart(t: string)
    requires t != [] && t[0] != '`'
    ensures !StartsWith(t, "```python") && !StartsWith(t, "```json")
  {
    assert forall p: string :: |p| <= |t| && p != [] && p[0] == '`' ==> t[..|p|] != p by {
      forall p: string | |p| <= |t| && p != [] && p[0] == '`' ensures t[..|p|] != p {
        assert t[..|p|][0] == t[0];
      }
    }
  }

  lemma FencedPrefixes(x: string)
    ensures StripPrefixes("```python\n" + x + "\n```", ResponsePrefixes) == "\n" + x + "\n```"
  {
    var s := "```python\n" + x + "\n```";
    var t := "\n" + x + "\n```";
    assert s == "```python" + t;
    var p := "```python";
    assert |p| == 9;
    assert s[..|p|] == p && s[|p|..] == t;
    assert s[0] == '`' && !StartsWith(s, "'");
    assert t[0] == '\n' && !StartsWith(t, "```json");
    ResponsePrefixSteps(s);
  }

  lemma FencedSuffixes(x: string)
    ensures StripSuffixes("\n" + x + "\n```", ResponseSuffixes) == "\n" + x + "\n"
  {
    var t := "\n" + x + "\n```";
    ResponseSuffixSteps(t);
    assert t[|t| - 1] == '`' && !EndsWith(t, "'");
    assert t[|t| - 3..] == "```";
    assert t[..|t| - 3] == "\n" + x + "\n";
  }

  /**
   A ```` ```python ```` fenced block is reduced to the code inside it; the
   code's own first and last characters are kept.
   */
  lemma CleanFencedBlock(x: string)
    requires x != [] && !IsSpace(x[0]) && !IsSpace(x[|x| - 1])
    ensures CleanResponse("```python\n" + x + "\n```") == x
  {
    FencedPrefixes(x);
    FencedSuffixes(x);
    CleanResponseSteps("```python\n" + x + "\n```", "\n" + x + "\n```", "\n" + x + "\n");
    StripNewlines(x);
  }

  /** Text that the listed artifacts cannot touch: no quote or backtick at either end. */
  predicate Untouched(x: string) {
    && x != []
    && !IsSpace(x[0]) && x[0] != '\'' && x[0] != '`'
    && !IsSpace(x[|x| - 1]) && x[|x| - 1] != '\'' && x[|x| - 1] != '`'
  }

  /** A leading quote not followed by a backtick is the only prefix removed. */
  lemma QuoteOnlyPrefix(s: string)
    requires |s| >= 2 && s[0] == '\'' && s[1] != '`'
    ensures StripPrefixes(s, ResponsePrefixes) == s[1..]
  {
    ResponsePrefixSteps(s);
    assert s[..1] == "'";
    NoFenceAtStart(s[1..]);
  }

  lemma QuotedPrefixes(x: string)
    requires Untouched(x)
    ensures StripPrefixes("'" + x + "'", ResponsePrefixes) == x + "'"
  {
    var s := "'" + x + "'";
    assert s[1..] == x + "'" && s[1] == x[0];
    QuoteOnlyPrefix(s);
  }

  lemma QuotedSuffixes(x: string)
    requires Untouched(x)
    ensures StripSuffixes(x + "'", ResponseSuffixes) == x
  {
    ResponseSuffixSteps(x + "'");
    assert (x + "'")[..|x|] == x;
  }

  /** A single pair of quotes is removed. */
  lemma CleanQuoted(x: string)
    requires Untouched(x)
    ensures CleanResponse("'" + x + "'") == x
  {
    QuotedPrefixes(x);
    QuotedSuffixes(x);
    CleanResponseSteps("'" + x + "'", x + "'", x);
    StripOfTrimmed(x);
  }

  lemma DoubleQuotedPrefixes(x: string)
    requires Untouched(x)
    ensures StripPrefixes("''" + x + "''", ResponsePrefixes) == "'" + x + "''"
  {
    var s := "''" + x + "''";
    assert s[1..] == "'" + x + "''" && s[1] == '\'';
    QuoteOnlyPrefix(s);
  }

  lemma DoubleQuotedSuffixes(x: string)
    requires Untouched(x)
    ensures StripSuffixes("'" + x + "''", ResponseSuffixes) == "'" + x + "'"
  {
    var t := "'" + x + "''";
    var q := "'" + x + "'";
    ResponseSuffixSteps(t);
    assert t[|t| - 1..] == "'" && t[..|t| - 1] == q;
    assert q[|q| - 1] == '\'';
  }

  /**
   Each artifact is removed at most once, so cleaning is not idempotent:
   doubled quotes lose one layer per cleaning.
   */
  lemma CleanNotIdempotent(x: string)
    requires Untouched(x)
    ensures CleanResponse("''" + x + "''") == "'" + x + "'"
    ensures CleanResponse(CleanResponse("''" + x + "''")) == x
  {
    DoubleQuotedPrefixes(x);
    DoubleQuotedSuffixes(x);
    CleanResponseSteps("''" + x + "''", "'" + x + "''", "'" + x + "'");
    StripOfTrimmed("'" + x + "'");
    CleanQuoted(x);
  }
}
