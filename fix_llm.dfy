/**
  The fixer script whose fix stages are separator removal, the control and
  CCI substitutions, the removal of invalid control items, and a formatting
  pass, applied in that order to the whole text. After writing its output it
  checks the YAML syntax and runs the external `openapi-llm` validator; the
  syntax check, the external validator and all file and console I/O are not
  part of this model.
*/
module FixWithLlm {
  import opened Text
  import opened Regex
  import opened Tables
  import opened Separators
  import opened Annotations
  import opened Formatting

  /** `fix_multiple_documents`: drops every marker line except the first
      one when it is one of the first five lines, and reports how many it
      dropped. */
  method FixMultipleDocuments(content: string) returns (result: string, removedCount: nat)
    ensures result == Deduplicate(content)
    ensures var marks := Marks(Split(content));
      removedCount == MarkerCount(marks, |marks|) - KeptMarkers(marks, |marks|)
  {
    var lines := Split(content);
    ghost var marks := Marks(lines);
    var cleaned: seq<string> := [];
    var separatorCount := 0;
    removedCount := 0;
    for i := 0 to |lines|
      invariant cleaned == Retained(lines, marks, i)
      invariant separatorCount == KeptMarkers(marks, i) <= 1
      invariant removedCount + separatorCount == MarkerCount(marks, i)
    {
      MarkerStep(marks, i);
      var line := lines[i];
      if Strip(line) == "---" {
        if separatorCount == 0 && i < 5 {
          cleaned := cleaned + [line];
        } else {
          removedCount := removedCount + 1;
          continue;
        }
        separatorCount := separatorCount + 1;
      } else {
        cleaned := cleaned + [line];
      }
    }
    result := Join(cleaned);
  }

  /** `remove_invalid_controls`: each invalid literal in list order, deleted
      only when `re.search` finds it, and recorded then. */
  method RemoveInvalidControls(content: string) returns (result: string, removed: seq<string>)
    ensures result == DeleteAll(InvalidLiterals, |InvalidLiterals|, content)
    ensures removed == Found(InvalidLiterals, |InvalidLiterals|, content)
  {
    result := content;
    removed := [];
    for k := 0 to |InvalidLiterals|
      invariant result == DeleteAll(InvalidLiterals, k, content)
      invariant removed == Found(InvalidLiterals, k, content)
    {
      var name := InvalidLiterals[k];
      DeleteIsSub(InvalidItem(name), result);
      if Search(InvalidItem(name), result) {
        result := Sub(InvalidItem(name), "", result);
        removed := removed + [name];
      }
    }
  }

  /** A formatting result: the text and the change records. */
  datatype Cleaned = Cleaned(text: string, changes: seq<string>)

  /** The record of the orphan step: the drop in the number of `x-faker`
      occurrences, when there is one. */
  function OrphanRecord(before: string, after: string): seq<string> {
    var was := Count(before, "x-faker");
    var now := Count(after, "x-faker");
    if was > now then ["removed " + NatToString(was - now) + " orphaned x-faker block(s)"] else []
  }

  /** `clean_formatting`: orphaned `x-faker` blocks deleted, every line
      right-stripped, and a final newline added to a non-empty text. */
  function CleanFormatting(content: string): Cleaned {
    var stripped := Delete(OrphanBlock, content);
    Cleaned(EnsureFinalNewline(RStripLines(stripped)), OrphanRecord(content, stripped))
  }

  /** No line of the cleaned text ends in whitespace; a non-empty one ends
      in a newline; it has the lines of the text left by the orphan step,
      and one more, empty, line when a newline was added. */
  lemma CleanFormattingShape(content: string)
    ensures var r := CleanFormatting(content).text;
      var stripped := Delete(OrphanBlock, content);
      && (forall k :: 0 <= k < |Split(r)| ==> Trimmed(Split(r)[k]))
      && (|r| > 0 ==> r[|r| - 1] == '\n')
      && |Split(r)| == |Split(stripped)| + (if r == RStripLines(stripped) then 0 else 1)
  {
    var stripped := Delete(OrphanBlock, content);
    var t := RStripLines(stripped);
    RStripLinesShape(stripped);
    if EnsureFinalNewline(t) != t {
      SplitAppendNewline(t);
    }
  }

  /** The orphan record appears only when the text held an `x-faker` key,
      and reports a positive drop. */
  lemma OrphanRecordNeedsFaker(content: string)
    ensures var changes := CleanFormatting(content).changes;
      && |changes| <= 1
      && (changes != [] ==> Contains(content, "x-faker"))
      && (changes != [] <==> Count(Delete(OrphanBlock, content), "x-faker") < Count(content, "x-faker"))
  {
    CountPositiveIffContains(content, "x-faker");
  }

  /** Text without `x-faker` only has its lines stripped and its final
      newline ensured, and nothing is recorded. */
  lemma CleanFormattingFakerFree(content: string)
    requires !Contains(content, "x-faker")
    ensures CleanFormatting(content) == Cleaned(EnsureFinalNewline(RStripLines(content)), [])
  {
    DeleteFakerFree(OrphanBlock, content);
  }

  /** Whitespace-only text comes out as its newlines only; it is empty only
      when it has no newline. */
  lemma CleanFormattingSpaces(content: string)
    requires AllSpace(content)
    ensures CleanFormatting(content).text == Newlines(NewlineCount(content))
  {
    assert "x-faker"[0] == 'x' && !IsSpace('x');
    MissingCharNotContained(content, "x-faker", 'x');
    CleanFormattingFakerFree(content);
    RStripSpaces(content);
  }

  /** The text `main` writes: the stages in their fixed order. */
  function Fixed(content: string): string {
    var deduplicated := Deduplicate(content);
    var controls := ReplaceControlSites(deduplicated);
    var ccis := ReplaceCciSites(controls);
    var valid := DeleteAll(InvalidLiterals, |InvalidLiterals|, ccis);
    CleanFormatting(valid).text
  }

  /** `main` between reading and writing: each stage consumes the text the
      one before it produced. */
  method Run(content: string) returns (result: string)
    ensures result == Fixed(content)
    ensures forall k :: 0 <= k < |Split(result)| ==> Trimmed(Split(result)[k])
    ensures |result| > 0 ==> result[|result| - 1] == '\n'
  {
    var text, removedCount := FixMultipleDocuments(content);
    text := ReplaceControlSites(text);
    text := ReplaceCciSites(text);
    var removed;
    text, removed := RemoveInvalidControls(text);
    CleanFormattingShape(text);
    result := CleanFormatting(text).text;
  }

  /** Text without `x-faker` whose lines end in no whitespace and which ends
      in a newline (or is empty) comes through the clean-up as it is. */
  lemma TrimmedClean(s: string)
    requires !Contains(s, "x-faker")
    requires forall k :: 0 <= k < |Split(s)| ==> Trimmed(Split(s)[k])
    requires |s| == 0 || s[|s| - 1] == '\n'
    ensures CleanFormatting(s).text == s
  {
    CleanFormattingFakerFree(s);
    assert RStripEach(Split(s)) == Split(s);
    JoinSplit(s);
  }

  /** No line of either sample is a marker. */
  lemma SampleLinesUnmarked()
    ensures forall k :: 0 <= k < |StackedLines| ==> !IsMarker(StackedLines[k])
    ensures forall k :: 0 <= k < |ExposedLines| ==> !IsMarker(ExposedLines[k])
  {
    forall k | 0 <= k < |StackedLines| ensures !IsMarker(StackedLines[k]) {
      SampleLineUnmarked(StackedLines, k);
    }
    forall k | 0 <= k < |ExposedLines| ensures !IsMarker(ExposedLines[k]) {
      SampleLineUnmarked(ExposedLines, k);
    }
  }

  lemma SampleLineUnmarked(lines: seq<string>, k: nat)
    requires lines == StackedLines || lines == ExposedLines
    requires k < |lines|
    ensures !IsMarker(lines[k])
  {
    var line := lines[k];
    if line == "-" {
      TrimmedLineMarker("-");
    } else if line == "- S-1" {
      TrimmedLineMarker("- S-1");
    } else if line == "S-1" {
      TrimmedLineMarker("S-1");
    } else {
      assert line == "";
    }
  }

  lemma SamplesDeduplicated()
    ensures Deduplicate(StackedItems) == StackedItems && Deduplicate(ExposedItem) == ExposedItem
  {
    SampleLines();
    SampleLinesUnmarked();
    DeduplicateUnmarked(StackedItems);
    DeduplicateUnmarked(ExposedItem);
  }

  lemma ExposedLinesTrimmed()
    ensures forall k :: 0 <= k < |ExposedLines| ==> Trimmed(ExposedLines[k])
  {
    forall k | 0 <= k < |ExposedLines| ensures Trimmed(ExposedLines[k]) {
      var line := ExposedLines[k];
      assert line == "-" || line == "S-1" || line == "";
    }
  }

  lemma ExposedClean()
    ensures CleanFormatting(ExposedItem).text == ExposedItem
  {
    SamplesFakerFree();
    SampleLines();
    ExposedLinesTrimmed();
    TrimmedClean(ExposedItem);
  }

  lemma EmptyClean()
    ensures CleanFormatting("").text == ""
  {
    SamplesFakerFree();
    SplitNoNewline("");
    TrimmedClean("");
  }

  /** Running the fixer on its own output can change it again: the first
      run exposes an `S-1` item that the second run deletes. */
  lemma FixedNotIdempotent()
    ensures Fixed(StackedItems) == ExposedItem && Fixed(ExposedItem) == ""
    ensures Fixed(Fixed(StackedItems)) != Fixed(StackedItems)
  {
    SamplesFakerFree();
    SamplesDeduplicated();
    StagesFakerFree(StackedItems);
    StagesFakerFree(ExposedItem);
    RemovalNotIdempotent();
    ExposedClean();
    EmptyClean();
  }
}
