/**
  The clean-up steps both cleaners share: deleting every match of a pattern
  (`re.sub(p, '', s)`), right-stripping every line, and appending a final
  newline to a non-empty text that lacks one; and the removal of the invalid
  control items, which both fixers apply in the same order.
*/
module Formatting {
  import opened Text
  import opened Regex
  import opened Tables

  /** `re.sub(p, '', s)`: every match deleted. */
  function Delete(p: Pattern, s: string): string {
    SubWith(MatcherOf(p), GroupCount(p), [], s, 0)
  }

  /** The empty replacement string reads as no pieces, so `Delete` is `re.sub`
      with it; the text changes exactly when `re.search` finds the pattern. */
  lemma DeleteIsSub(p: Pattern, s: string)
    ensures TemplateFor(p, "") && Delete(p, s) == Sub(p, "", s)
    ensures Delete(p, s) != s <==> Search(p, s)
    ensures |Delete(p, s)| <= |s|
  {
    DeleteChangesIffFound(p, s);
    DeleteWithShrinks(MatcherOf(p), GroupCount(p), s, 0);
  }

  /** Text without `x-faker` loses nothing to an `x-faker` pattern. */
  lemma DeleteFakerFree(p: Pattern, s: string)
    requires FakerPattern(p) && !Contains(s, "x-faker")
    ensures Delete(p, s) == s
  {
    DeleteIsSub(p, s);
    FakerFreeUnchanged(p, "", s);
  }

  // ---------------------------------------------------------------------
  // Trailing whitespace

  /** `[line.rstrip() for line in lines]`. */
  function RStripEach(lines: seq<string>): (r: seq<string>)
    ensures |r| == |lines| && forall k :: 0 <= k < |lines| ==> r[k] == RStrip(lines[k])
  {
    seq(|lines|, k requires 0 <= k < |lines| => RStrip(lines[k]))
  }

  /** `'\n'.join(line.rstrip() for line in s.split('\n'))`. */
  function RStripLines(s: string): string {
    Join(RStripEach(Split(s)))
  }

  /** A line without trailing whitespace. */
  predicate Trimmed(line: string) {
    line == [] || !IsSpace(line[|line| - 1])
  }

  /** The stripped lines are the lines of the result: the result has as many
      lines as the input, and none of them ends in whitespace. */
  lemma RStripLinesShape(s: string)
    ensures Split(RStripLines(s)) == RStripEach(Split(s))
    ensures NewlineCount(RStripLines(s)) == NewlineCount(s)
    ensures forall k :: 0 <= k < |Split(RStripLines(s))| ==> Trimmed(Split(RStripLines(s))[k])
  {
    var lines := RStripEach(Split(s));
    forall k | 0 <= k < |lines| ensures '\n' !in lines[k] {
      PrefixLacks('\n', lines[k], Split(s)[k]);
    }
    SplitJoin(lines);
    forall k | 0 <= k < |lines| ensures Trimmed(lines[k]) {
      var r := RStrip(Split(s)[k]);
      assert lines[k] == r;
    }
  }

  /** Stripping twice is stripping once. */
  lemma RStripLinesIdempotent(s: string)
    ensures RStripLines(RStripLines(s)) == RStripLines(s)
  {
    RStripLinesShape(s);
    var lines := RStripEach(Split(s));
    assert RStripEach(lines) == lines;
  }

  /** The number of lines that `rstrip` changes:
      `len([l for l in lines if l != l.rstrip()])`. */
  function UntrimmedCount(lines: seq<string>): (n: nat)
    ensures n <= |lines|
  {
    if |lines| == 0 then 0
    else UntrimmedCount(lines[..|lines| - 1]) + (if RStrip(lines[|lines| - 1]) != lines[|lines| - 1] then 1 else 0)
  }

  lemma {:induction false} UntrimmedCountZero(lines: seq<string>)
    ensures UntrimmedCount(lines) == 0 <==> RStripEach(lines) == lines
  {
    if |lines| > 0 {
      var init := lines[..|lines| - 1];
      UntrimmedCountZero(init);
      if RStripEach(lines) == lines {
        assert RStripEach(init) == init;
      }
    }
  }

  /** The trailing-whitespace count is zero exactly when stripping changes nothing. */
  lemma UntrimmedCountZeroIffUnchanged(s: string)
    ensures UntrimmedCount(Split(s)) == 0 <==> RStripLines(s) == s
  {
    UntrimmedCountZero(Split(s));
    JoinSplit(s);
    RStripLinesShape(s);
  }

  // ---------------------------------------------------------------------
  // Final newline

  /** `if s and not s.endswith('\n'): s += '\n'`. */
  function EnsureFinalNewline(s: string): (r: string)
    ensures r == s || r == s + "\n"
    ensures |r| > 0 ==> r[|r| - 1] == '\n'
    ensures r == s <==> |s| == 0 || s[|s| - 1] == '\n'
  {
    if |s| > 0 && s[|s| - 1] != '\n' then s + "\n" else s
  }

  lemma EnsureFinalNewlineIdempotent(s: string)
    ensures EnsureFinalNewline(EnsureFinalNewline(s)) == EnsureFinalNewline(s)
  {
  }

  /** `n` newline characters. */
  function Newlines(n: nat): (r: string)
    ensures |r| == n && forall k :: 0 <= k < n ==> r[k] == '\n'
  {
    seq(n, _ => '\n')
  }

  lemma {:induction false} SplitOfSpaces(s: string)
    requires AllSpace(s)
    ensures forall k :: 0 <= k < |Split(s)| ==> AllSpace(Split(s)[k])
  {
    if |s| > 0 {
      SplitOfSpaces(s[1..]);
      var rest := Split(s[1..]);
      if s[0] != '\n' {
        var first := [s[0]] + rest[0];
        assert AllSpace(rest[0]);
        assert Split(s) == [first] + rest[1..];
        forall k | 0 <= k < |Split(s)| ensures AllSpace(Split(s)[k]) {
          if k > 0 {
            assert Split(s)[k] == rest[k];
          }
        }
      }
    }
  }

  lemma {:induction false} JoinEmptyLines(lines: seq<string>)
    requires |lines| > 0 && forall k :: 0 <= k < |lines| ==> lines[k] == ""
    ensures Join(lines) == Newlines(|lines| - 1)
  {
    if |lines| > 1 {
      JoinEmptyLines(lines[1..]);
      assert Join(lines) == "" + "\n" + Join(lines[1..]);
    }
  }

  /** A text of whitespace only strips to its newlines. */
  lemma RStripSpaces(s: string)
    requires AllSpace(s)
    ensures RStripLines(s) == Newlines(NewlineCount(s))
  {
    SplitOfSpaces(s);
    var lines := RStripEach(Split(s));
    forall k | 0 <= k < |lines| ensures lines[k] == "" {
      assert AllSpace(Split(s)[k]);
    }
    JoinEmptyLines(lines);
  }

  // ---------------------------------------------------------------------
  // Invalid control items

  /** `re.sub(r"-\s+<lit>\n", "", s)`. */
  function DeleteInvalid(lit: string, s: string): string {
    Delete(InvalidItem(lit), s)
  }

  /** The first `n` invalid-item deletions of `lits`, applied in list order. */
  function DeleteAll(lits: seq<string>, n: nat, s: string): string
    requires n <= |lits|
  {
    if n == 0 then s else DeleteInvalid(lits[n - 1], DeleteAll(lits, n - 1, s))
  }

  /** The literals among the first `n` that `re.search` finds, each in the
      text left by the deletions before it. */
  function Found(lits: seq<string>, n: nat, s: string): seq<string>
    requires n <= |lits|
  {
    if n == 0 then []
    else Found(lits, n - 1, s) + (if Search(InvalidItem(lits[n - 1]), DeleteAll(lits, n - 1, s)) then [lits[n - 1]] else [])
  }

  /** The literals among the first `n` whose deletion changed the text. */
  function Changed(lits: seq<string>, n: nat, s: string): seq<string>
    requires n <= |lits|
  {
    if n == 0 then []
    else Changed(lits, n - 1, s) + (if DeleteAll(lits, n, s) != DeleteAll(lits, n - 1, s) then [lits[n - 1]] else [])
  }

  /** A literal is recorded exactly when its deletion changed the text. */
  lemma {:induction false} FoundIsChanged(lits: seq<string>, n: nat, s: string)
    requires n <= |lits|
    ensures Found(lits, n, s) == Changed(lits, n, s)
  {
    if n > 0 {
      FoundIsChanged(lits, n - 1, s);
      DeleteIsSub(InvalidItem(lits[n - 1]), DeleteAll(lits, n - 1, s));
    }
  }

  /** The deletions never lengthen the text. */
  lemma {:induction false} DeleteAllShrinks(lits: seq<string>, n: nat, s: string)
    requires n <= |lits|
    ensures |DeleteAll(lits, n, s)| <= |s|
  {
    if n > 0 {
      DeleteAllShrinks(lits, n - 1, s);
      DeleteIsSub(InvalidItem(lits[n - 1]), DeleteAll(lits, n - 1, s));
    }
  }

  /** What a deletion removes: a dash, a non-empty whitespace run (which may
      cross lines), the literal and a newline. */
  lemma InvalidItemShape(lit: string, s: string, i: nat)
    requires i <= |s| && Match(InvalidItem(lit), s, i).Some?
    ensures var e := Match(InvalidItem(lit), s, i).value.end;
      && s[i] == '-' && i + 2 + |lit| <= e
      && AllSpace(s[i + 1..e - |lit| - 1])
      && OccursAt(s, e - |lit| - 1, lit + "\n")
      && '\n' in s[i..]
  {
    assert MatchInvalidItem(lit, s, i).Some?;
    var j := SpaceRunEnd(s, i + 1);
    SpaceRunEndMaximal(s, i + 1);
    var e := j + |lit| + 1;
    assert s[i + 1..e - |lit| - 1] == s[i + 1..j];
    assert s[e - 1] == (lit + "\n")[|lit|] == '\n';
    assert s[e - 1] == s[i..][e - 1 - i];
  }

  /** An item on the last line, with no newline after it, is never deleted. */
  lemma LastLineKept(lit: string, s: string, i: nat)
    requires i <= |s| && '\n' !in s[i..]
    ensures Match(InvalidItem(lit), s, i).None?
  {
    if Match(InvalidItem(lit), s, i).Some? {
      InvalidItemShape(lit, s, i);
      assert false;
    }
  }

  /** A dash whose item goes on past the literal (such as `S-10` for the
      literal `S-1`) does not start a deletion: the pattern needs a newline
      right after the literal. */
  lemma LongerItemKept(lit: string, s: string, i: nat)
    requires i < |s| && s[i] == '-'
    requires var j := SpaceRunEnd(s, i + 1);
      OccursAt(s, j, lit) && j + |lit| < |s| && s[j + |lit|] != '\n'
    ensures Match(InvalidItem(lit), s, i).None?
  {
    var j := SpaceRunEnd(s, i + 1);
    assert !OccursAt(s, j, lit + "\n") by {
      if j + |lit| + 1 <= |s| {
        assert s[j..j + |lit| + 1][|lit|] == s[j + |lit|];
        assert (lit + "\n")[|lit|] == '\n';
      }
    }
  }

  /** Where no dash starts a match, the deletion leaves the text as it is. */
  lemma DashesKept(lit: string, s: string)
    requires forall k :: 0 <= k < |s| && s[k] == '-' ==> Match(InvalidItem(lit), s, k).None?
    ensures DeleteInvalid(lit, s) == s
  {
    var m := MatcherOf(InvalidItem(lit));
    forall k | 0 <= k <= |s| ensures m(s, k).None? {
      assert m(s, k) == Match(InvalidItem(lit), s, k);
    }
    SubWithNoMatch(m, 0, [], s, 0);
  }

  /** With one match only, from `i` to `e`, the deletion cuts out exactly
      that span. */
  lemma OneItemDeleted(lit: string, s: string, i: nat, e: nat)
    requires i <= e <= |s| && Match(InvalidItem(lit), s, i) == Some(Span(e, []))
    requires forall k :: 0 <= k < i && s[k] == '-' ==> Match(InvalidItem(lit), s, k).None?
    requires forall k :: e <= k < |s| && s[k] == '-' ==> Match(InvalidItem(lit), s, k).None?
    ensures DeleteInvalid(lit, s) == s[..i] + s[e..]
  {
    var m := MatcherOf(InvalidItem(lit));
    forall k | 0 <= k < i ensures m(s, k).None? {
      assert m(s, k) == Match(InvalidItem(lit), s, k);
    }
    forall k | e <= k <= |s| ensures m(s, k).None? {
      assert m(s, k) == Match(InvalidItem(lit), s, k);
    }
    SubWithAtFirst(m, 0, [], s, i);
    SubWithNoMatch(m, 0, [], s, e);
  }

  // ---------------------------------------------------------------------
  // A deletion can expose another item

  /** A bare dash line above an `S-1` item, above a line that holds `S-1`
      alone: deleting the item brings the dash and that line together. */
  const StackedItems := "-\n- S-1\nS-1\n"
  /** What one removal pass leaves of `StackedItems`: an item again. */
  const ExposedItem := "-\nS-1\n"

  const StackedLines: seq<string> := ["-", "- S-1", "S-1", ""]
  const ExposedLines: seq<string> := ["-", "S-1", ""]

  lemma StackedMatch()
    ensures Match(InvalidItem("S-1"), StackedItems, 2) == Some(Span(8, []))
  {
    SpaceRunEndIs(StackedItems, 3, 4);
    assert OccursAt(StackedItems, 4, "S-1\n");
  }

  lemma StackedOtherDashes()
    ensures forall k :: 0 <= k < 2 && StackedItems[k] == '-' ==> Match(InvalidItem("S-1"), StackedItems, k).None?
    ensures forall k :: 8 <= k < |StackedItems| && StackedItems[k] == '-' ==> Match(InvalidItem("S-1"), StackedItems, k).None?
  {
    SpaceRunEndIs(StackedItems, 1, 2);
    assert !OccursAt(StackedItems, 2, "S-1\n");
    SpaceRunEndIs(StackedItems, 10, 10);
  }

  /** The first `S-1` deletion removes the middle line only. */
  lemma StackedFirstPass()
    ensures DeleteInvalid("S-1", StackedItems) == ExposedItem
  {
    StackedMatch();
    StackedOtherDashes();
    OneItemDeleted("S-1", StackedItems, 2, 8);
    assert StackedItems[..2] + StackedItems[8..] == ExposedItem;
  }

  lemma ExposedMatch()
    ensures Match(InvalidItem("S-1"), ExposedItem, 0) == Some(Span(6, []))
  {
    SpaceRunEndIs(ExposedItem, 1, 2);
    assert OccursAt(ExposedItem, 2, "S-1\n");
  }

  /** The dash inside `S-1` has no whitespace after it. */
  lemma ExposedInnerDash(lit: string)
    requires |lit| > 0
    ensures Match(InvalidItem(lit), ExposedItem, 3).None?
  {
    SpaceRunEndIs(ExposedItem, 4, 4);
  }

  /** A second `S-1` deletion removes what the first one exposed. */
  lemma ExposedSecondPass()
    ensures DeleteInvalid("S-1", ExposedItem) == ""
  {
    ExposedMatch();
    OneItemDeleted("S-1", ExposedItem, 0, 6);
  }

  /** The other literals, all longer than `S-1`, find nothing there. */
  lemma ExposedKeeps(lit: string)
    requires |lit| > 3
    ensures DeleteInvalid(lit, ExposedItem) == ExposedItem
  {
    SpaceRunEndIs(ExposedItem, 1, 2);
    ExposedInnerDash(lit);
    DashesKept(lit, ExposedItem);
  }

  lemma EmptyKeeps(lit: string)
    ensures DeleteInvalid(lit, "") == ""
  {
    DashesKept(lit, "");
  }

  /** Removing the invalid items is not idempotent: the second removal of
      `StackedItems` deletes what the first one exposed. */
  lemma RemovalNotIdempotent()
    ensures DeleteAll(InvalidLiterals, |InvalidLiterals|, StackedItems) == ExposedItem
    ensures DeleteAll(InvalidLiterals, |InvalidLiterals|, ExposedItem) == ""
  {
    StackedFirstPass();
    ExposedSecondPass();
    ExposedKeeps("S-23"); ExposedKeeps("UA-16"); ExposedKeeps("SI-56");
    EmptyKeeps("S-23"); EmptyKeeps("UA-16"); EmptyKeeps("SI-56");
    assert DeleteAll(InvalidLiterals, 1, StackedItems) == ExposedItem;
    assert DeleteAll(InvalidLiterals, 2, StackedItems) == ExposedItem;
    assert DeleteAll(InvalidLiterals, 3, StackedItems) == ExposedItem;
    assert DeleteAll(InvalidLiterals, 1, ExposedItem) == "";
    assert DeleteAll(InvalidLiterals, 2, ExposedItem) == "";
    assert DeleteAll(InvalidLiterals, 3, ExposedItem) == "";
  }

  /** Neither sample holds an `x-faker` key. */
  lemma SamplesFakerFree()
    ensures !Contains(StackedItems, "x-faker") && !Contains(ExposedItem, "x-faker") && !Contains("", "x-faker")
  {
    assert "x-faker"[0] == 'x';
    MissingCharNotContained(StackedItems, "x-faker", 'x');
    MissingCharNotContained(ExposedItem, "x-faker", 'x');
    MissingCharNotContained("", "x-faker", 'x');
  }

  lemma JoinStacked()
    ensures Join(StackedLines) == StackedItems
  {
    assert Join(StackedLines[2..]) == "S-1\n";
    assert Join(StackedLines[1..]) == "- S-1\nS-1\n";
  }

  lemma JoinExposed()
    ensures Join(ExposedLines) == ExposedItem
  {
    assert Join(ExposedLines[1..]) == "S-1\n";
  }

  /** The lines of the two samples. */
  lemma SampleLines()
    ensures Split(StackedItems) == StackedLines && Split(ExposedItem) == ExposedLines
  {
    JoinStacked();
    JoinExposed();
    SplitJoin(StackedLines);
    SplitJoin(ExposedLines);
  }
}
