/**
 `_move_imports_to_top`: rewrite a cache file's lines (as `readlines` gives
 them) with every import line first and every other line after it.
 */
module Hoisting {
  import opened Strings

  /** A line whose stripped form starts with `import ` or `from `. */
  predicate IsImportLine(line: string) {
    var t := Strip(line);
    StartsWith(t, "import ") || StartsWith(t, "from ")
  }

  /** How an import line is written back: stripped and newline-terminated. */
  function Normalized(line: string): string {
    Strip(line) + "\n"
  }

  /**
   The lines `select` picks, each rewritten by `norm`, in their original
   order. The partition lemmas below are stated for any `select` and `norm`.
   */
  function Picked(lines: seq<string>, select: string -> bool, norm: string -> string): seq<string> {
    if lines == [] then []
    else if select(lines[0]) then [norm(lines[0])] + Picked(lines[1..], select, norm)
    else Picked(lines[1..], select, norm)
  }

  /** The lines `select` leaves, unchanged, in their original order. */
  function Left(lines: seq<string>, select: string -> bool): seq<string> {
    if lines == [] then []
    else if select(lines[0]) then Left(lines[1..], select)
    else [lines[0]] + Left(lines[1..], select)
  }

  /** The import lines, normalised, in their original order. */
  function Imports(lines: seq<string>): seq<string> {
    Picked(lines, IsImportLine, Normalized)
  }

  /** The other lines, unchanged, in their original order. */
  function Others(lines: seq<string>): seq<string> {
    Left(lines, IsImportLine)
  }

  /** The file's lines after the rewrite. */
  function Hoisted(lines: seq<string>): seq<string> {
    Imports(lines) + Others(lines)
  }

  /**
   The loop of `_move_imports_to_top`, for any line test and rewrite: one
   pass that appends each line to one of two lists.
   */
  method Partition(lines: seq<string>, select: string -> bool, norm: string -> string)
    returns (picked: seq<string>, left: seq<string>)
    ensures picked == Picked(lines, select, norm) && left == Left(lines, select)
    ensures |picked| + |left| == |lines|
  {
    picked, left := [], [];
    var i := 0;
    while i < |lines|
      invariant 0 <= i <= |lines|
      invariant picked + Picked(lines[i..], select, norm) == Picked(lines, select, norm)
      invariant left + Left(lines[i..], select) == Left(lines, select)
    {
      var line := lines[i];
      assert lines[i..][0] == line && lines[i..][1..] == lines[i + 1..];
      if select(line) {
        assert Picked(lines[i..], select, norm) == [norm(line)] + Picked(lines[i + 1..], select, norm);
        picked := picked + [norm(line)];
      } else {
        assert Left(lines[i..], select) == [line] + Left(lines[i + 1..], select);
        left := left + [line];
      }
      i := i + 1;
    }
    assert lines[i..] == [];
    PartitionLength(lines, select, norm);
  }

  /** `_move_imports_to_top` on the file's lines. */
  method MoveImportsToTop(lines: seq<string>) returns (r: seq<string>)
    ensures r == Hoisted(lines)
    ensures |r| == |lines|
  {
    var imports, others := Partition(lines, IsImportLine, Normalized);
    r := imports + others;
  }

  lemma PickedAppend(a: seq<string>, b: seq<string>, select: string -> bool, norm: string -> string)
    ensures Picked(a + b, select, norm) == Picked(a, select, norm) + Picked(b, select, norm)
    ensures Left(a + b, select) == Left(a, select) + Left(b, select)
  {
    PickedConcat(a, b, select, norm);
    LeftConcat(a, b, select);
  }

  lemma {:induction false} PickedConcat(a: seq<string>, b: seq<string>, select: string -> bool, norm: string -> string)
    ensures Picked(a + b, select, norm) == Picked(a, select, norm) + Picked(b, select, norm)
  {
    if a == [] {
      assert a + b == b;
    } else {
      assert (a + b)[0] == a[0] && (a + b)[1..] == a[1..] + b;
      PickedConcat(a[1..], b, select, norm);
    }
  }

  lemma {:induction false} LeftConcat(a: seq<string>, b: seq<string>, select: string -> bool)
    ensures Left(a + b, select) == Left(a, select) + Left(b, select)
  {
    if a == [] {
      assert a + b == b;
    } else {
      assert (a + b)[0] == a[0] && (a + b)[1..] == a[1..] + b;
      LeftConcat(a[1..], b, select);
    }
  }

  /** Every line goes to exactly one of the two groups, so no line is lost or added. */
  lemma {:induction false} PartitionLength(lines: seq<string>, select: string -> bool, norm: string -> string)
    ensures |Picked(lines, select, norm)| + |Left(lines, select)| == |lines|
  {
    if lines != [] {
      PartitionLength(lines[1..], select, norm);
    }
  }

  /** A normalised import line is still an import line, and normalising it again changes nothing. */
  lemma NormalizedStable(line: string)
    requires IsImportLine(line)
    ensures IsImportLine(Normalized(line))
    ensures Normalized(Normalized(line)) == Normalized(line)
  {
    var t := Strip(line);
    assert t != [] && (t[0] == 'i' || t[0] == 'f');
    StripAppendSpace(t, '\n');
    assert Strip(Normalized(line)) == t;
  }

  /** `norm` keeps selected lines selected and is idempotent on them. */
  ghost predicate Stable(select: string -> bool, norm: string -> string) {
    forall l :: select(l) ==> select(norm(l)) && norm(norm(l)) == norm(l)
  }

  /**
   The picked lines are all selected and the left lines are not.
   */
  lemma {:induction false} PartitionSides(lines: seq<string>, select: string -> bool, norm: string -> string)
    requires Stable(select, norm)
    ensures forall i :: 0 <= i < |Picked(lines, select, norm)| ==> select(Picked(lines, select, norm)[i])
    ensures forall i :: 0 <= i < |Left(lines, select)| ==> !select(Left(lines, select)[i])
  {
    if lines != [] {
      PartitionSides(lines[1..], select, norm);
    }
  }

  /** Picked lines are kept as they are by a second partition. */
  lemma {:induction false} PickedOfPicked(lines: seq<string>, select: string -> bool, norm: string -> string)
    requires Stable(select, norm)
    ensures Picked(Picked(lines, select, norm), select, norm) == Picked(lines, select, norm)
    ensures Left(Picked(lines, select, norm), select) == []
  {
    if lines != [] {
      PickedOfPicked(lines[1..], select, norm);
      if select(lines[0]) {
        PickedAppend([norm(lines[0])], Picked(lines[1..], select, norm), select, norm);
      }
    }
  }

  /** Left lines stay where a second partition puts them. */
  lemma {:induction false} LeftOfLeft(lines: seq<string>, select: string -> bool, norm: string -> string)
    ensures Picked(Left(lines, select), select, norm) == []
    ensures Left(Left(lines, select), select) == Left(lines, select)
  {
    if lines != [] {
      LeftOfLeft(lines[1..], select, norm);
      if !select(lines[0]) {
        PickedAppend([lines[0]], Left(lines[1..], select), select, norm);
      }
    }
  }

  lemma ImportLinesStable()
    ensures Stable(IsImportLine, Normalized)
  {
    forall l | IsImportLine(l)
      ensures IsImportLine(Normalized(l)) && Normalized(Normalized(l)) == Normalized(l)
    {
      NormalizedStable(l);
    }
  }

  /** Picked lines come first and are all selected; the left lines follow and are not. */
  lemma PartitionShape(lines: seq<string>, select: string -> bool, norm: string -> string)
    requires Stable(select, norm)
    ensures var out := Picked(lines, select, norm) + Left(lines, select);
            && |out| == |lines|
            && (forall i :: 0 <= i < |Picked(lines, select, norm)| ==> select(out[i]))
            && (forall i :: |Picked(lines, select, norm)| <= i < |lines| ==> !select(out[i]))
  {
    PartitionLength(lines, select, norm);
    PartitionSides(lines, select, norm);
    var p := Picked(lines, select, norm);
    var l := Left(lines, select);
    assert forall i :: |p| <= i < |lines| ==> (p + l)[i] == l[i - |p|];
  }

  /**
   The rewrite keeps every line: import lines come first and the other lines
   after them.
   */
  lemma HoistedShape(lines: seq<string>)
    ensures |Hoisted(lines)| == |lines|
    ensures forall i :: 0 <= i < |Imports(lines)| ==> IsImportLine(Hoisted(lines)[i])
    ensures forall i :: |Imports(lines)| <= i < |lines| ==> !IsImportLine(Hoisted(lines)[i])
  {
    ImportLinesStable();
    PartitionShape(lines, IsImportLine, Normalized);
  }

  /**
   The rewrite is idempotent, and it keeps the import lines (normalised) and
   the other lines (verbatim) in their original relative order.
   */
  lemma HoistedIdempotent(lines: seq<string>)
    ensures Imports(Hoisted(lines)) == Imports(lines)
    ensures Others(Hoisted(lines)) == Others(lines)
    ensures Hoisted(Hoisted(lines)) == Hoisted(lines)
  {
    PickedAppend(Imports(lines), Others(lines), IsImportLine, Normalized);
    ImportLinesStable();
    PickedOfPicked(lines, IsImportLine, Normalized);
    LeftOfLeft(lines, IsImportLine, Normalized);
  }

  /**
   The test is textual: any indented line whose text starts with the word
   `from`, such as a line of a docstring or of a multi-line string, counts
   as an import line.
   */
  lemma FromTextIsImportLine(t: string)
    requires StartsWith(t, "from ") && !IsSpace(t[|t| - 1])
    ensures IsImportLine("  " + t + "\n")
    ensures Normalized("  " + t + "\n") == t + "\n"
  {
    assert t[..5][0] == t[0] == 'f';
    StripIndentedLine(t);
  }

  /**
   Such a line is moved above the line `d` that came before it, for
   instance out of the docstring of the definition `d` opens.
   */
  lemma TextLineHoisted(d: string, t: string)
    requires !IsImportLine(d)
    requires StartsWith(t, "from ") && !IsSpace(t[|t| - 1])
    ensures Hoisted([d, "  " + t + "\n"]) == [t + "\n", d]
  {
    FromTextIsImportLine(t);
    HoistPair(d, "  " + t + "\n");
  }

  /** An import line after another line goes above it. */
  lemma HoistPair(d: string, line: string)
    requires !IsImportLine(d) && IsImportLine(line)
    ensures Hoisted([d, line]) == [Normalized(line), d]
  {
    PickedPair(d, line, IsImportLine, Normalized);
    LeftPair(d, line, IsImportLine);
  }

  /** Two lines, the second picked: the partition of the pair, for any test. */
  lemma PickedPair(d: string, line: string, select: string -> bool, norm: string -> string)
    requires !select(d) && select(line)
    ensures Picked([d, line], select, norm) == [norm(line)]
  {
    assert [d, line][0] == d && [d, line][1..] == [line];
    assert [line][0] == line && [line][1..] == [];
    assert Picked([line], select, norm) == [norm(line)] + Picked([], select, norm);
  }

  lemma LeftPair(d: string, line: string, select: string -> bool)
    requires !select(d) && select(line)
    ensures Left([d, line], select) == [d]
  {
    assert [d, line][0] == d && [d, line][1..] == [line];
    assert [line][0] == line && [line][1..] == [];
    assert Left([line], select) == Left([], select);
  }
}
