/**
 The splice step of `_rewrite_copiled_source`: replace a cached definition,
 located by its first line, with new source text. The first line is an input
 here; finding it needs the live module and is not part of this model.
 */
module Splice {
  import opened Strings

  /** The characters of `s`, each as its own list element. */
  function Chars(s: string): (r: seq<string>)
    ensures |r| == |s| && Concat(r) == s
  {
    if s == [] then []
    else
      var rest := Chars(s[1..]);
      assert ([[s[0]]] + rest)[0] == [s[0]] && ([[s[0]]] + rest)[1..] == rest;
      assert [s[0]] + s[1..] == s;
      [[s[0]]] + rest
  }

  function Min(a: int, b: int): int {
    if a <= b then a else b
  }

  function Max(a: int, b: int): int {
    if a >= b then a else b
  }

  /**
   `lines[start - 1:end] = new_source + '\n\n\n'` with
   `end = start + len(old_source.split('\n'))`. Python clamps both slice
   bounds to the list, and assigning a string to a list slice inserts its
   characters one element each.
   */
  function SpliceLines(lines: seq<string>, startLine: nat, oldSource: string, newSource: string): seq<string>
    requires startLine >= 1
  {
    var endLine := startLine + |Split(oldSource, "\n")|;
    var lo := Min(startLine - 1, |lines|);
    var hi := Max(lo, Min(endLine, |lines|));
    lines[..lo] + Chars(newSource + "\n\n\n") + lines[hi..]
  }

  /** Every line holds exactly one newline, as `readlines` returns them (last line aside). */
  ghost predicate OneNewlineEach(lines: seq<string>) {
    forall i :: 0 <= i < |lines| ==> Count(lines[i], '\n') == 1
  }

  lemma {:induction false} CountConcat(lines: seq<string>)
    requires OneNewlineEach(lines)
    ensures Count(Concat(lines), '\n') == |lines|
  {
    if lines != [] {
      assert OneNewlineEach(lines[1..]) by {
        assert forall i :: 0 <= i < |lines[1..]| ==> lines[1..][i] == lines[i + 1];
      }
      CountConcat(lines[1..]);
      CountAppend(lines[0], Concat(lines[1..]), '\n');
    }
  }

  /**
   When the old definition is the `n` whole lines starting at `startLine`,
   the splice removes those lines AND the two lines after them, then inserts
   the new source followed by three newlines.
   */
  lemma SpliceDropsTwoFollowingLines(lines: seq<string>, startLine: nat, n: nat, oldSource: string, newSource: string)
    requires startLine >= 1 && startLine - 1 + n + 2 <= |lines|
    requires OneNewlineEach(lines[startLine - 1..startLine - 1 + n])
    requires oldSource == Concat(lines[startLine - 1..startLine - 1 + n])
    ensures Concat(SpliceLines(lines, startLine, oldSource, newSource))
              == Concat(lines[..startLine - 1]) + newSource + "\n\n\n" + Concat(lines[startLine + n + 1..])
  {
    CountConcat(lines[startLine - 1..startLine - 1 + n]);
    SplitCount(oldSource, '\n');
    var r := SpliceLines(lines, startLine, oldSource, newSource);
    assert r == lines[..startLine - 1] + Chars(newSource + "\n\n\n") + lines[startLine + n + 1..];
    ConcatAppend(lines[..startLine - 1] + Chars(newSource + "\n\n\n"), lines[startLine + n + 1..]);
    ConcatAppend(lines[..startLine - 1], Chars(newSource + "\n\n\n"));
  }

  /**
   When fewer than two lines follow the old definition, the slice is clipped
   at the end of the file and everything from the definition on is replaced.
   */
  lemma SpliceAtEndOfFile(lines: seq<string>, startLine: nat, n: nat, oldSource: string, newSource: string)
    requires startLine >= 1 && startLine - 1 + n <= |lines| < startLine - 1 + n + 2
    requires OneNewlineEach(lines[startLine - 1..startLine - 1 + n])
    requires oldSource == Concat(lines[startLine - 1..startLine - 1 + n])
    ensures Concat(SpliceLines(lines, startLine, oldSource, newSource))
              == Concat(lines[..startLine - 1]) + newSource + "\n\n\n"
  {
    CountConcat(lines[startLine - 1..startLine - 1 + n]);
    SplitCount(oldSource, '\n');
    var r := SpliceLines(lines, startLine, oldSource, newSource);
    assert lines[|lines|..] == [];
    assert r == lines[..startLine - 1] + Chars(newSource + "\n\n\n") + [];
    assert r == lines[..startLine - 1] + Chars(newSource + "\n\n\n");
    ConcatAppend(lines[..startLine - 1], Chars(newSource + "\n\n\n"));
  }
}
