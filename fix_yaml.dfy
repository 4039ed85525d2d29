/**
  The standalone fixer: the control substitution in two passes (the
  anchored one, then one for bare `x-faker` blocks), the CCI substitution,
  and the unconditional removal of the invalid control items, in that order.
  File I/O and the command line are not part of this model.
*/
module FixYaml {
  import opened Text
  import opened Regex
  import opened Tables
  import opened Annotations
  import opened Formatting

  /** `re.sub` of the bare control pattern with a replacement `text` that has
      no backslash, from index `i` on. */
  function ReplaceBare(text: string, content: string, i: nat): string
    requires i <= |content|
  {
    SubWith(MatcherOf(BareControl), 0, Chars(text), content, i)
  }

  /** A replacement without backslashes is taken literally, so `re.sub` with
      it is `ReplaceBare`. */
  lemma BareSubIs(text: string, s: string)
    requires '\\' !in text
    ensures TemplateFor(BareControl, text) && Sub(BareControl, text, s) == ReplaceBare(text, s, 0)
  {
    ParsePlain(text);
  }

  /** The second pass's replacement: the control enumeration, with no
      indentation before it. */
  const BareText: string := ControlEnum()

  /** The second pass's replacement has no backslash, so `re.sub` takes it
      literally. */
  lemma BareTemplateReads(s: string)
    ensures TemplateFor(BareControl, BareText)
    ensures Sub(BareControl, BareText, s) == ReplaceBare(BareText, s, 0)
  {
    NoBackslashInControlEnum();
    BareSubIs(BareText, s);
  }

  /** `fix_control_acronyms`: the anchored pass, then the bare pass. */
  function FixControlAcronyms(content: string): string {
    ReplaceBare(BareText, ReplaceControlSites(content), 0)
  }

  /** At the first bare block, the text before it is kept, the replacement
      text takes the block's place, and the pass goes on after the block. */
  lemma BareSite(text: string, s: string, i: nat)
    requires i <= |s| && Match(BareControl, s, i).Some?
    requires forall k :: 0 <= k < i ==> Match(BareControl, s, k).None?
    ensures ReplaceBare(text, s, 0) == s[..i] + text + ReplaceBare(text, s, Match(BareControl, s, i).value.end)
  {
    SubWithAtFirst(MatcherOf(BareControl), 0, Chars(text), s, i);
    FillChars(text, Match(BareControl, s, i).value.groups);
  }

  /** A bare block runs from an `x-faker:` key to the first `SI-4(11)` item
      after the `AC-1` item (with its newline) that opens the list. */
  lemma BareSpan(s: string, i: nat)
    requires i <= |s| && Match(BareControl, s, i).Some?
    ensures OccursAt(s, i, "x-faker:")
    ensures var e := Match(BareControl, s, i).value.end;
      && EndsAfterStopItem(s, e)
      && exists d :: i < d <= e && OpensAndStops(s, "AC-1\n", d, e)
  {
    assert MatchBareControl(s, i).Some?;
    ControlListEnd(s, i + 8, "AC-1\n");
    var d := ListHead(s, i + 8, "AC-1\n").value;
    assert i < d <= Match(BareControl, s, i).value.end;
  }

  /** Where a bare block was replaced by text that starts with something
      other than `x`, the pattern no longer matches. */
  lemma BareInert(t: string, i: nat, text: string)
    requires OccursAt(t, i, text) && |text| > 0 && text[0] != 'x'
    ensures Match(BareControl, t, i).None?
  {
    OccursAtFirst(t, i, text);
    OccursAtFirst(t, i, "x-faker:");
  }

  lemma EnumStart(body: string)
    ensures ("enum:" + body)[0] == 'e'
  {
  }

  /** A rewritten bare site no longer matches on a second run. */
  lemma BareRewriteInert(t: string, i: nat)
    requires OccursAt(t, i, BareText)
    ensures Match(BareControl, t, i).None?
  {
    EnumStart(RenderFamilies(ListedFamilies));
    BareInert(t, i, BareText);
  }

  lemma BareFakerFree(text: string, s: string)
    requires !Contains(s, "x-faker")
    ensures ReplaceBare(text, s, 0) == s
  {
    forall k | 0 <= k <= |s| ensures MatcherOf(BareControl)(s, k).None? {
      if Match(BareControl, s, k).Some? {
        FakerMatchNeedsFaker(BareControl, s, k);
      }
    }
    SubWithNoMatch(MatcherOf(BareControl), 0, Chars(text), s, 0);
  }

  /** Text without an `x-faker` key passes both control passes unchanged. */
  lemma FixControlFakerFree(s: string)
    requires !Contains(s, "x-faker")
    ensures FixControlAcronyms(s) == s
  {
    StagesFakerFree(s);
    BareFakerFree(BareText, s);
  }

  /** `remove_invalid_controls`: every invalid literal deleted in list order,
      whether or not it occurs. */
  method RemoveInvalidControls(content: string) returns (result: string)
    ensures result == DeleteAll(InvalidLiterals, |InvalidLiterals|, content)
  {
    result := content;
    for k := 0 to |InvalidLiterals|
      invariant result == DeleteAll(InvalidLiterals, k, content)
    {
      DeleteIsSub(InvalidItem(InvalidLiterals[k]), result);
      result := Sub(InvalidItem(InvalidLiterals[k]), "", result);
    }
  }

  /** The text `main` writes: the stages in their fixed order. */
  function Fixed(content: string): string {
    var controls := FixControlAcronyms(content);
    var ccis := ReplaceCciSites(controls);
    DeleteAll(InvalidLiterals, |InvalidLiterals|, ccis)
  }

  /** `main` between reading and writing: each stage consumes the text the
      one before it produced. */
  method Run(content: string) returns (result: string)
    ensures result == Fixed(content)
    ensures |result| <= |ReplaceCciSites(FixControlAcronyms(content))|
  {
    var text := FixControlAcronyms(content);
    text := ReplaceCciSites(text);
    DeleteAllShrinks(InvalidLiterals, |InvalidLiterals|, text);
    result := RemoveInvalidControls(text);
  }

  /** Without an `x-faker` key only the invalid items are removed. */
  lemma FixedFakerFree(content: string)
    requires !Contains(content, "x-faker")
    ensures Fixed(content) == DeleteAll(InvalidLiterals, |InvalidLiterals|, content)
  {
    FixControlFakerFree(content);
    StagesFakerFree(content);
  }

  /** Running the fixer on its own output can change it again: the first
      run exposes an `S-1` item that the second run deletes. */
  lemma FixedNotIdempotent()
    ensures Fixed(StackedItems) == ExposedItem && Fixed(ExposedItem) == ""
    ensures Fixed(Fixed(StackedItems)) != Fixed(StackedItems)
  {
    SamplesFakerFree();
    FixedFakerFree(StackedItems);
    FixedFakerFree(ExposedItem);
    RemovalNotIdempotent();
  }
}
