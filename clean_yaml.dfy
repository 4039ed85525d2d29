/**
  The standalone cleaner: marker lines dropped by the same rule as the
  fixer's separator step, orphaned `x-faker` blocks deleted, the comment line
  under an `enum:` key re-indented, every line right-stripped, and a final
  newline ensured, with a record of each change; the file is written only
  when the text changed. Reading and writing the file and printing are not
  part of this model: the text read is an input, and whether and where it
  is written are results.
*/
module CleanYaml {
  import opened Text
  import opened Regex
  import opened Separators
  import opened Formatting

  // ---------------------------------------------------------------------
  // Change records

  /** One entry of the list of changes the cleaner reports. */
  datatype Change =
    | SeparatorRemoved(line: nat)
    | FakerBlocksRemoved(count: nat)
    | TrailingWhitespaceRemoved(lines: nat)
    | NewlineAdded

  /** The text of a change record, as the cleaner prints it. */
  function Message(c: Change): string {
    match c
    case SeparatorRemoved(n) => "Removed document separator at line " + NatToString(n)
    case FakerBlocksRemoved(n) => "Removed " + NatToString(n) + " x-faker block(s)"
    case TrailingWhitespaceRemoved(n) => "Removed trailing whitespace from " + NatToString(n) + " line(s)"
    case NewlineAdded => "Added newline at end of file"
  }

  // ---------------------------------------------------------------------
  // Separators

  /** The record of a dropped marker on the 1-based line `n`. */
  function SeparatorRecord(n: nat): Change {
    SeparatorRemoved(n)
  }

  /** The records of the markers dropped among the first `n` lines, in order. */
  function SeparatorRecords(marks: seq<bool>, n: nat): seq<Change>
    requires n <= |marks|
  {
    if n == 0 then []
    else SeparatorRecords(marks, n - 1) + (if KeptAt(marks, n - 1) then [] else [SeparatorRecord(n)])
  }

  /** One record per dropped marker: as many as the markers less the one
      kept, if any. */
  lemma {:induction false} SeparatorRecordsCount(marks: seq<bool>, n: nat)
    requires n <= |marks|
    ensures KeptMarkers(marks, n) <= MarkerCount(marks, n)
    ensures |SeparatorRecords(marks, n)| == MarkerCount(marks, n) - KeptMarkers(marks, n)
  {
    if n > 0 {
      SeparatorRecordsCount(marks, n - 1);
    }
  }

  /** The records grow by the record of line `i` exactly when it is a
      dropped marker. */
  lemma RecordsStep(marks: seq<bool>, i: nat)
    requires i < |marks|
    ensures SeparatorRecords(marks, i + 1)
      == SeparatorRecords(marks, i) + (if KeptAt(marks, i) then [] else [SeparatorRecord(i + 1)])
  {
  }

  /** A document the separator rule leaves as it is gets no separator record. */
  lemma {:induction false} SettledNoRecords(marks: seq<bool>, n: nat)
    requires n <= |marks| && Settled(marks)
    ensures SeparatorRecords(marks, n) == []
  {
    if n > 0 {
      SettledNoRecords(marks, n - 1);
      assert KeptAt(marks, n - 1);
    }
  }

  // ---------------------------------------------------------------------
  // Orphaned x-faker blocks

  /** The record of the orphan step: the drop in the number of `x-faker`
      occurrences, when there is one. */
  function OrphanRecords(before: string, after: string): seq<Change> {
    var was := Count(before, "x-faker");
    var now := Count(after, "x-faker");
    if was > now then [FakerBlocksRemoved(was - now)] else []
  }

  /** The orphan record appears only when the text held `x-faker`, and
      exactly when the deletion lowered its count. */
  lemma OrphanRecordsNeedFaker(content: string)
    ensures var after := Delete(OrphanBlock, content);
      && |OrphanRecords(content, after)| <= 1
      && (OrphanRecords(content, after) != [] <==> Count(after, "x-faker") < Count(content, "x-faker"))
      && (OrphanRecords(content, after) != [] ==> Contains(content, "x-faker"))
  {
    CountPositiveIffContains(content, "x-faker");
  }

  // ---------------------------------------------------------------------
  // Comment lines under enum keys

  /** The replacement string `r'\n\1enum:\n\1  #'`. */
  const EnumTemplate: string := "\\n\\1enum:\\n\\1  #"

  /** How `re.sub` reads `EnumTemplate`: a newline, group one, `enum:`, a
      newline, group one again, two spaces and `#`. */
  function EnumPieces(): (r: seq<Piece>)
    ensures RefsWithin(r, 2)
  {
    [Chr('\n'), Ref(1)] + Chars("enum:") + [Chr('\n'), Ref(1)] + Chars("  #")
  }

  /** `\1<x><rest>`, where `x` has no backslash and does not start with a
      digit, reads as group one, `x` and what `rest` reads as. */
  lemma ParseGroupPlain(x: string, rest: string)
    requires '\\' !in x && |x| > 0 && !IsDigit(x[0]) && ParseTemplate(rest).Some?
    ensures ParseTemplate("\\1" + x + rest) == Some([Ref(1)] + Chars(x) + ParseTemplate(rest).value)
  {
    var r := ParseTemplate(rest).value;
    ParsePlainPrefix(x, rest);
    var t1 := x + rest;
    assert t1[0] == x[0];
    ParseGroupOne(t1);
    assert "\\1" + t1 == "\\1" + x + rest;
    assert [Ref(1)] + (Chars(x) + r) == [Ref(1)] + Chars(x) + r;
  }

  /** `\n\1<x><rest>` reads as a newline, group one, `x` and what `rest`
      reads as. */
  lemma ParseNewlineGroup(x: string, rest: string)
    requires '\\' !in x && |x| > 0 && !IsDigit(x[0]) && ParseTemplate(rest).Some?
    ensures ParseTemplate(['\\', 'n'] + ("\\1" + x + rest))
      == Some([Chr('\n')] + ([Ref(1)] + Chars(x) + ParseTemplate(rest).value))
  {
    ParseGroupPlain(x, rest);
    assert EscapeChar('n') == Some('\n');
    ParseEscape('n', "\\1" + x + rest);
  }

  /** The two lines of the template, one after the other. */
  lemma TemplateSplits()
    ensures EnumTemplate == ['\\', 'n'] + ("\\1" + "enum:" + (['\\', 'n'] + ("\\1" + "  #" + "")))
  {
  }

  /** The pieces of two template lines, regrouped as the parser builds them. */
  lemma PiecesSplit(x: string, y: string)
    ensures [Chr('\n'), Ref(1)] + Chars(x) + [Chr('\n'), Ref(1)] + Chars(y)
      == [Chr('\n')] + ([Ref(1)] + Chars(x) + ([Chr('\n')] + ([Ref(1)] + Chars(y) + [])))
  {
  }

  /** The second line of the template, `\n\1  #`. */
  lemma TailReads()
    ensures ParseTemplate(['\\', 'n'] + ("\\1" + "  #" + "")) == Some([Chr('\n')] + ([Ref(1)] + Chars("  #") + []))
  {
    var y := "  #";
    assert !IsDigit(y[0]);
    assert ParseTemplate("") == Some([]);
    ParseNewlineGroup(y, "");
  }

  lemma EnumTemplateReads()
    ensures ParseTemplate(EnumTemplate) == Some(EnumPieces())
    ensures TemplateFor(EnumComment, EnumTemplate)
  {
    var x := "enum:";
    assert !IsDigit(x[0]);
    TailReads();
    ParseNewlineGroup(x, ['\\', 'n'] + ("\\1" + "  #" + ""));
    TemplateSplits();
    PiecesSplit(x, "  #");
  }

  /** The enum-comment fix: `re.sub` of `\n(\s+)enum:\n(\s+)#` with
      `EnumTemplate`, from index `i` on. */
  function FixEnumComments(content: string, i: nat): string
    requires i <= |content|
  {
    SubWith(MatcherOf(EnumComment), 2, EnumPieces(), content, i)
  }

  lemma FixEnumCommentsIsSub(content: string)
    ensures TemplateFor(EnumComment, EnumTemplate)
    ensures Sub(EnumComment, EnumTemplate, content) == FixEnumComments(content, 0)
  {
    EnumTemplateReads();
  }

  /** Filling a newline and group one. */
  lemma FillNewlineGroup(groups: seq<string>)
    requires |groups| >= 1
    ensures Fill([Chr('\n'), Ref(1)], groups) == "\n" + groups[0]
  {
    var head: seq<Piece> := [Chr('\n'), Ref(1)];
    var last: seq<Piece> := [Ref(1)];
    assert head[1..] == last && last[1..] == [];
    assert Fill(last, groups) == groups[0] + Fill([], groups);
    assert Fill(head, groups) == "\n" + Fill(last, groups);
  }

  /** Filling `\n\1<x>\n\1<y>` with plain `x` and `y`. */
  lemma FillTwoLines(x: string, y: string, groups: seq<string>)
    requires |groups| >= 1
    ensures RefsWithin([Chr('\n'), Ref(1)] + Chars(x) + [Chr('\n'), Ref(1)] + Chars(y), |groups|)
    ensures Fill([Chr('\n'), Ref(1)] + Chars(x) + [Chr('\n'), Ref(1)] + Chars(y), groups)
      == "\n" + groups[0] + x + "\n" + groups[0] + y
  {
    var head: seq<Piece> := [Chr('\n'), Ref(1)];
    assert RefsWithin(head, |groups|);
    FillNewlineGroup(groups);
    FillChars(x, groups);
    FillChars(y, groups);
    FillAppend(head, Chars(x), groups);
    FillAppend(head + Chars(x), head, groups);
    FillAppend(head + Chars(x) + head, Chars(y), groups);
  }

  /** Filling the enum template with the header's whitespace `a`. */
  lemma FillEnumPieces(a: string, b: string)
    ensures Fill(EnumPieces(), [a, b]) == "\n" + a + "enum:\n" + a + "  #"
  {
    FillTwoLines("enum:", "  #", [a, b]);
  }

  /** What a match of the enum pattern consumes: a newline, the header's
      non-empty whitespace `a`, `enum:` and a newline, a non-empty
      whitespace run and `#`. */
  lemma EnumMatchShape(s: string, i: nat)
    requires i <= |s| && Match(EnumComment, s, i).Some?
    ensures var span := Match(EnumComment, s, i).value;
      var a := span.groups[0];
      && |a| > 0 && AllSpace(a)
      && OccursAt(s, i, "\n" + a + "enum:\n")
  {
    assert MatchEnumComment(s, i).Some?;
    var g := SpaceRunEnd(s, i + 1);
    SpaceRunEndMaximal(s, i + 1);
    var a := s[i + 1..g];
    assert s[i..g + 6] == "\n" + a + "enum:\n" by {
      assert s[g..g + 6] == "enum:\n";
      assert s[i..g + 6] == [s[i]] + s[i + 1..g] + s[g..g + 6];
    }
  }

  /** At the first match, the text before it is kept, and the header, a
      newline, the header's whitespace, two spaces and `#` take the match's
      place: the comment is indented two spaces past its `enum:` key. */
  lemma EnumSiteRewritten(s: string, i: nat)
    requires i <= |s| && Match(EnumComment, s, i).Some?
    requires forall k :: 0 <= k < i ==> Match(EnumComment, s, k).None?
    ensures var span := Match(EnumComment, s, i).value;
      var a := span.groups[0];
      && OccursAt(s, i, "\n" + a + "enum:\n")
      && FixEnumComments(s, 0) == s[..i] + ("\n" + a + "enum:\n" + a + "  #") + FixEnumComments(s, span.end)
  {
    var span := Match(EnumComment, s, i).value;
    SubWithAtFirst(MatcherOf(EnumComment), 2, EnumPieces(), s, i);
    FillEnumPieces(span.groups[0], span.groups[1]);
    EnumMatchShape(s, i);
  }

  /** A stretch of an occurrence is the same stretch of the text. */
  lemma OccurrenceSlice(t: string, i: nat, site: string, x: nat, y: nat)
    requires OccursAt(t, i, site) && x <= y <= |site|
    ensures t[i + x..i + y] == site[x..y]
  {
    forall k | 0 <= k < y - x
      ensures t[i + x..i + y][k] == site[x..y][k]
    {
      assert t[i + x + k] == t[i..i + |site|][x + k];
    }
  }

  /** Every character of an all-whitespace stretch is whitespace. */
  lemma SpacesIn(t: string, x: nat, y: nat)
    requires x <= y <= |t| && AllSpace(t[x..y])
    ensures forall k :: x <= k < y ==> IsSpace(t[k])
  {
    forall k | x <= k < y ensures IsSpace(t[k]) {
      assert t[k] == t[x..y][k - x];
    }
  }

  /** The parts of a rewritten site `\n<a>enum:\n<a>  #`. */
  lemma SiteParts(a: string)
    ensures var site := "\n" + a + "enum:\n" + a + "  #";
      && |site| == 2 * |a| + 10
      && site[0..1] == "\n"
      && site[1..1 + |a|] == a
      && site[1 + |a|..7 + |a|] == "enum:\n"
      && site[7 + |a|..9 + 2 * |a|] == a + "  "
      && site[9 + 2 * |a|..10 + 2 * |a|] == "#"
  {
    var site := "\n" + a + "enum:\n" + a + "  #";
    assert site == "\n" + a + "enum:\n" + (a + "  ") + "#";
  }

  /** The stretches of a rewritten site `\n<a>enum:\n<a>  #` at `i`. */
  lemma SiteSlices(t: string, i: nat, a: string)
    requires OccursAt(t, i, "\n" + a + "enum:\n" + a + "  #")
    ensures var g := i + 1 + |a|;
      var h := g + 8 + |a|;
      && h < |t|
      && t[i..i + 1] == "\n" && t[i + 1..g] == a && t[g..g + 6] == "enum:\n"
      && t[g + 6..h] == a + "  " && t[h..h + 1] == "#"
  {
    var site := "\n" + a + "enum:\n" + a + "  #";
    SiteParts(a);
    OccurrenceSlice(t, i, site, 0, 1);
    OccurrenceSlice(t, i, site, 1, 1 + |a|);
    OccurrenceSlice(t, i, site, 1 + |a|, 7 + |a|);
    OccurrenceSlice(t, i, site, 7 + |a|, 9 + 2 * |a|);
    OccurrenceSlice(t, i, site, 9 + 2 * |a|, 10 + 2 * |a|);
  }

  /** The characters of a rewritten site, in the terms the enum pattern
      reads them. */
  lemma SiteChars(t: string, i: nat, a: string)
    requires AllSpace(a) && OccursAt(t, i, "\n" + a + "enum:\n" + a + "  #")
    ensures var g := i + 1 + |a|;
      var h := g + 8 + |a|;
      && h < |t| && t[i] == '\n' && t[h] == '#'
      && OccursAt(t, g, "enum:\n") && !IsSpace(t[g])
      && t[i + 1..g] == a && t[g + 6..h] == a + "  "
      && (forall k :: i + 1 <= k < g ==> IsSpace(t[k]))
      && (forall k :: g + 6 <= k < h ==> IsSpace(t[k]))
  {
    var g := i + 1 + |a|;
    var h := g + 8 + |a|;
    SiteSlices(t, i, a);
    assert t[i] == t[i..i + 1][0];
    assert t[g] == t[g..g + 6][0];
    assert t[h] == t[h..h + 1][0];
    assert AllSpace(a + "  ");
    SpacesIn(t, i + 1, g);
    SpacesIn(t, g + 6, h);
  }

  /** A rewritten site is stable: the pattern matches there again, over the
      same text, and the template gives that text back. */
  lemma EnumSiteStable(t: string, i: nat, a: string)
    requires |a| > 0 && AllSpace(a) && OccursAt(t, i, "\n" + a + "enum:\n" + a + "  #")
    ensures var site := "\n" + a + "enum:\n" + a + "  #";
      && Match(EnumComment, t, i) == Some(Span(i + |site|, [a, a + "  "]))
      && Fill(EnumPieces(), [a, a + "  "]) == site
  {
    var g := i + 1 + |a|;
    var h := g + 8 + |a|;
    SiteChars(t, i, a);
    SpaceRunEndIs(t, i + 1, g);
    SpaceRunEndIs(t, g + 6, h);
    FillEnumPieces(a, a + "  ");
  }

  // ---------------------------------------------------------------------
  // Trailing whitespace and the final newline

  /** The record of the strip step, counting the lines `rstrip` changes. */
  function TrailingRecords(content: string): seq<Change> {
    var n := UntrimmedCount(Split(content));
    if n > 0 then [TrailingWhitespaceRemoved(n)] else []
  }

  /** The strip record appears exactly when stripping changes the text. */
  lemma TrailingRecordsIff(content: string)
    ensures TrailingRecords(content) != [] <==> RStripLines(content) != content
  {
    UntrimmedCountZeroIffUnchanged(content);
  }

  /** The record of the newline step. */
  function NewlineRecords(content: string): seq<Change> {
    if |content| > 0 && content[|content| - 1] != '\n' then [NewlineAdded] else []
  }

  /** The newline record appears exactly when a newline is appended. */
  lemma NewlineRecordsIff(content: string)
    ensures NewlineRecords(content) != [] <==> EnsureFinalNewline(content) != content
    ensures NewlineRecords(content) != [] <==> |content| > 0 && content[|content| - 1] != '\n'
  {
  }

  // ---------------------------------------------------------------------
  // clean_yaml

  /** The text the cleaner produces: the stages in their fixed order. */
  function Cleaned(content: string): string {
    var separated := Deduplicate(content);
    var orphans := Delete(OrphanBlock, separated);
    var enums := FixEnumComments(orphans, 0);
    EnsureFinalNewline(RStripLines(enums))
  }

  /** The change records, in the order the stages produce them. */
  function Changes(content: string): seq<Change> {
    var lines := Split(content);
    var separated := Deduplicate(content);
    var orphans := Delete(OrphanBlock, separated);
    var enums := FixEnumComments(orphans, 0);
    var stripped := RStripLines(enums);
    SeparatorRecords(Marks(lines), |lines|) + OrphanRecords(separated, orphans)
      + TrailingRecords(enums) + NewlineRecords(stripped)
  }

  /** The text and the records, stage by stage. */
  lemma CleanStages(original: string, separated: string, orphans: string, enums: string, stripped: string)
    requires separated == Deduplicate(original) && orphans == Delete(OrphanBlock, separated)
    requires enums == FixEnumComments(orphans, 0) && stripped == RStripLines(enums)
    ensures Cleaned(original) == EnsureFinalNewline(stripped)
    ensures Changes(original) == SeparatorRecords(Marks(Split(original)), |Split(original)|)
      + OrphanRecords(separated, orphans) + TrailingRecords(enums) + NewlineRecords(stripped)
  {
  }

  /** No line of the cleaned text ends in whitespace, and a non-empty one
      ends in a newline. */
  lemma CleanedShape(content: string)
    ensures var r := Cleaned(content);
      && (forall k :: 0 <= k < |Split(r)| ==> Trimmed(Split(r)[k]))
      && (|r| > 0 ==> r[|r| - 1] == '\n')
  {
    var t := RStripLines(FixEnumComments(Delete(OrphanBlock, Deduplicate(content)), 0));
    RStripLinesShape(FixEnumComments(Delete(OrphanBlock, Deduplicate(content)), 0));
    if EnsureFinalNewline(t) != t {
      SplitAppendNewline(t);
    }
  }

  /** The separator loop of `clean_yaml`: every marker line but the first
      one among the first five lines is dropped, with a record naming its
      1-based line. `marks` are the marker flags of `lines`. */
  method DropSeparatorLines(lines: seq<string>, ghost marks: seq<bool>)
    returns (cleanedLines: seq<string>, changes: seq<Change>)
    requires |marks| == |lines|
    requires forall k {:trigger MarkedAs(lines, marks, k)} :: 0 <= k < |lines| ==> MarkedAs(lines, marks, k)
    ensures cleanedLines == Retained(lines, marks, |lines|)
    ensures changes == SeparatorRecords(marks, |lines|)
  {
    changes := [];
    cleanedLines := [];
    var separatorCount := 0;
    var firstSeparatorLine := -1;
    for i := 0 to |lines|
      invariant cleanedLines == Retained(lines, marks, i)
      invariant separatorCount == KeptMarkers(marks, i) <= 1
      invariant changes == SeparatorRecords(marks, i)
    {
      MarkerStep(marks, i);
      RecordsStep(marks, i);
      assert MarkedAs(lines, marks, i);
      var line := lines[i];
      if Strip(line) == "---" {
        if separatorCount == 0 && i < 5 {
          cleanedLines := cleanedLines + [line];
          firstSeparatorLine := i;
        } else {
          changes := changes + [SeparatorRecord(i + 1)];
          continue;
        }
        separatorCount := separatorCount + 1;
      } else {
        cleanedLines := cleanedLines + [line];
      }
    }
    // The summary record needs two kept markers, and the loop keeps at most one.
    assert separatorCount <= 1;
  }

  /** The orphan step of `clean_yaml`: orphaned `x-faker` blocks deleted,
      with a record of how many `x-faker` occurrences went. */
  method RemoveOrphanBlocks(content: string) returns (result: string, changes: seq<Change>)
    ensures result == Delete(OrphanBlock, content)
    ensures changes == OrphanRecords(content, result)
  {
    var originalFakerCount := Count(content, "x-faker");
    result := Delete(OrphanBlock, content);
    var newFakerCount := Count(result, "x-faker");
    changes := [];
    if originalFakerCount > newFakerCount {
      changes := [FakerBlocksRemoved(originalFakerCount - newFakerCount)];
    }
  }

  /** The strip step of `clean_yaml`: every line right-stripped, with a
      record of how many lines changed. */
  method StripTrailingWhitespace(content: string) returns (result: string, changes: seq<Change>)
    ensures result == RStripLines(content)
    ensures changes == TrailingRecords(content)
  {
    var originalLineCount := UntrimmedCount(Split(content));
    result := RStripLines(content);
    changes := [];
    if originalLineCount > 0 {
      changes := [TrailingWhitespaceRemoved(originalLineCount)];
    }
  }

  /** `clean_yaml`, once the file is read: the text it arrives at, the change
      records, the path it writes to (the input path unless another is
      given) and whether it writes, which it does, and reports, exactly when
      the text changed. */
  method Clean(filepath: string, outputFilepath: Option<string>, original: string)
    returns (content: string, changes: seq<Change>, target: string, written: bool)
    ensures content == Cleaned(original)
    ensures changes == Changes(original)
    ensures target == (if outputFilepath.None? then filepath else outputFilepath.value)
    ensures written <==> content != original
  {
    var lines := Split(original);
    MarksMarked(lines);
    var cleanedLines, records;
    cleanedLines, changes := DropSeparatorLines(lines, Marks(lines));
    content := Join(cleanedLines);
    ghost var separated := content;

    content, records := RemoveOrphanBlocks(content);
    changes := changes + records;
    ghost var orphans := content;

    FixEnumCommentsIsSub(content);
    content := Sub(EnumComment, EnumTemplate, content);
    ghost var enums := content;

    content, records := StripTrailingWhitespace(content);
    changes := changes + records;
    ghost var stripped := content;

    if |content| > 0 && content[|content| - 1] != '\n' {
      changes := changes + [NewlineAdded];
      content := content + "\n";
    }
    CleanStages(original, separated, orphans, enums, stripped);

    target := if outputFilepath.None? then filepath else outputFilepath.value;
    written := content != original;
  }
}
