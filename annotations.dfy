/**
  The annotation substitutions both fixers share: an `x-faker` /
  `random.arrayElement` block under an `acronym:` key is replaced by the
  control enumeration, one under a six-digit `example:` by the CCI
  enumeration. The replacement is the captured anchor line, a newline, ten
  literal spaces and the table text; the indentation of the anchor is not
  copied.
*/
module Annotations {
  import opened Text
  import opened Tables
  import opened Regex

  /** What follows the anchor line in a control replacement: ten spaces and
      the control enumeration. */
  const ControlText: string := TenSpaces + ControlEnum()

  /** The replacement string `r"\1\n          " + control_enum`. */
  const ControlTemplate: string := "\\1\\n" + ControlText

  /** What follows the anchor line in a CCI replacement, as the template
      writes it: the escaped backslash is still doubled. */
  const CciText: string := TenSpaces + CciEnum()

  /** The replacement string `r"\1\n          " + cci_enum`. */
  const CciTemplate: string := "\\1\\n" + CciText

  /** The parsed form of a template `\1\n<text>` whose text has no backslash. */
  function GroupThenText(text: string): (r: seq<Piece>)
    ensures RefsWithin(r, 1)
  {
    [Ref(1)] + Chars("\n" + text)
  }

  /** Filling `\1\n<text>` gives the group, a newline and the text. */
  lemma FillGroupThenText(text: string, g: string)
    ensures Fill(GroupThenText(text), [g]) == g + "\n" + text
  {
    var pieces := GroupThenText(text);
    assert pieces[1..] == Chars("\n" + text);
    FillChars("\n" + text, [g]);
  }

  /** A template `\1\n<t>`, where `t` reads as the plain text `text`,
      reads as group one, a newline and that text. */
  lemma ParseGroupNewline(t: string, text: string)
    requires ParseTemplate(t) == Some(Chars(text))
    ensures ParseTemplate("\\1\\n" + t) == Some(GroupThenText(text))
  {
    ParseEscape('n', t);
    var tail := ['\\', 'n'] + t;
    ParseGroupOne(tail);
    assert "\\1\\n" + t == "\\1" + tail;
    var nl := "\n" + text;
    assert nl[0] == '\n' && nl[1..] == text;
    assert Chars(nl) == [Chr('\n')] + Chars(text);
  }

  /** A backslash-free template text is taken literally after `\1\n`. */
  lemma ParseGroupThenText(text: string)
    requires '\\' !in text
    ensures ParseTemplate("\\1\\n" + text) == Some(GroupThenText(text))
  {
    ParsePlain(text);
    ParseGroupNewline(text, text);
  }

  /** The control template reads as the anchor line, a newline, ten spaces
      and the control enumeration, all taken literally. */
  lemma ControlTemplateReads()
    ensures ParseTemplate(ControlTemplate) == Some(GroupThenText(ControlText))
    ensures TemplateFor(AnchoredControl, ControlTemplate)
  {
    NoBackslashInControlEnum();
    NoCharInConcat(TenSpaces, ControlEnum(), '\\');
    ParseGroupThenText(ControlText);
  }

  /** `<pre>\\<post>` with backslash-free sides reads as the text with
      the escaped backslash taken once. */
  lemma ParseEscapedBackslash(pre: string, post: string)
    requires '\\' !in pre && '\\' !in post
    ensures ParseTemplate(pre + "\\\\" + post) == Some(Chars(pre + "\\" + post))
  {
    var escaped := ['\\', '\\'] + post;
    ParseBackslashEscape(post);
    ParsePlainPrefix(pre, escaped);
    SplitBackslashes(pre, post);
    CharsAroundBackslash(pre, post);
  }

  lemma ParseBackslashEscape(post: string)
    requires '\\' !in post
    ensures ParseTemplate(['\\', '\\'] + post) == Some([Chr('\\')] + Chars(post))
  {
    ParsePlain(post);
    ParseEscape('\\', post);
    assert EscapeChar('\\') == Some('\\');
  }

  lemma SplitBackslashes(pre: string, post: string)
    ensures pre + "\\\\" + post == pre + (['\\', '\\'] + post)
  {
  }

  lemma CharsAroundBackslash(pre: string, post: string)
    ensures Chars(pre + "\\" + post) == Chars(pre) + ([Chr('\\')] + Chars(post))
  {
    var s := pre + "\\" + post;
    var x, y := Chars(s), Chars(pre) + ([Chr('\\')] + Chars(post));
    forall k | 0 <= k < |x| ensures x[k] == y[k] {
      if k < |pre| {
        assert s[k] == pre[k];
      } else if k == |pre| {
        assert s[k] == '\\';
      } else {
        assert s[k] == post[k - |pre| - 1];
      }
    }
  }

  /** `a` followed by the three parts `b`, `c`, `d` is `a + b + c + d`. */
  lemma Regroup(a: string, b: string, c: string, d: string)
    ensures a + (b + c + d) == a + b + c + d
  {
  }

  /** The text of the CCI template reads as `CciInserted()` after ten spaces. */
  lemma CciTextReads()
    ensures ParseTemplate(CciText) == Some(Chars(TenSpaces + CciInserted()))
  {
    CciEnumFakerFree();
    NoCharInConcat(TenSpaces, CciHead, '\\');
    ParseEscapedBackslash(TenSpaces + CciHead, CciTail());
    Regroup(TenSpaces, CciHead, "\\\\", CciTail());
    Regroup(TenSpaces, CciHead, "\\", CciTail());
  }

  /** The CCI template: its `\\` escape is read as one backslash, so what
      is inserted after the anchor line is ten spaces and `CciInserted()`. */
  lemma CciTemplateReads()
    ensures ParseTemplate(CciTemplate) == Some(GroupThenText(TenSpaces + CciInserted()))
    ensures TemplateFor(CciBlock, CciTemplate)
  {
    CciTextReads();
    ParseGroupNewline(CciText, TenSpaces + CciInserted());
  }

  /** `re.sub` with a `\1\n<text>` template, from index `i` on. */
  function ReplaceSites(p: Pattern, text: string, content: string, i: nat): string
    requires GroupCount(p) == 1 && i <= |content|
  {
    SubWith(MatcherOf(p), 1, GroupThenText(text), content, i)
  }

  /** `re.sub` with a template that reads as `\1\n<text>` is `ReplaceSites`. */
  lemma SubOfGroupTemplate(p: Pattern, t: string, text: string, s: string)
    requires TemplateFor(p, t) && ParseTemplate(t) == Some(GroupThenText(text)) && GroupCount(p) == 1
    ensures Sub(p, t, s) == ReplaceSites(p, text, s, 0)
  {
  }

  /** `fix_control_acronyms` of the script with the LLM step, and the first
      pass of the one in the other script: `re.sub` of the anchored control
      pattern with `ControlTemplate`, which `ControlTemplateReads` shows to
      read as `\1\n` and `ControlText`. */
  function ReplaceControlSites(content: string): string {
    ReplaceSites(AnchoredControl, ControlText, content, 0)
  }

  /** `fix_cci_identifiers` (both scripts): `re.sub` of the CCI pattern with
      `CciTemplate`, which `CciTemplateReads` shows to read as `\1\n`, ten
      spaces and `CciInserted()`. */
  function ReplaceCciSites(content: string): string {
    ReplaceSites(CciBlock, TenSpaces + CciInserted(), content, 0)
  }

  /** A `\1\n<text>` template at the first match of any matcher with one group. */
  lemma GroupSite(m: Matcher, text: string, s: string, i: nat)
    requires Sound(m, 1) && i <= |s| && m(s, i).Some?
    requires forall k :: 0 <= k < i ==> m(s, k).None?
    ensures SubWith(m, 1, GroupThenText(text), s, 0) == s[..i] + m(s, i).value.groups[0] + "\n" + text
      + SubWith(m, 1, GroupThenText(text), s, m(s, i).value.end)
  {
    var pieces := GroupThenText(text);
    SubWithAtFirst(m, 1, pieces, s, i);
    var span := m(s, i).value;
    var g := span.groups[0];
    assert span.groups == [g];
    FillGroupThenText(text, g);
    var rest := SubWith(m, 1, pieces, s, span.end);
    ConcatRegroup(s[..i], g, text, rest);
  }

  lemma ConcatRegroup(a: string, g: string, text: string, rest: string)
    ensures a + (g + "\n" + text) + rest == a + g + "\n" + text + rest
  {
  }

  lemma AnchoredSite(text: string, s: string, i: nat)
    requires i <= |s| && Match(AnchoredControl, s, i).Some?
    requires forall k :: 0 <= k < i ==> Match(AnchoredControl, s, k).None?
    ensures var span := Match(AnchoredControl, s, i).value;
      ReplaceSites(AnchoredControl, text, s, 0) == s[..i] + span.groups[0] + "\n" + text
        + ReplaceSites(AnchoredControl, text, s, span.end)
  {
    GroupSite(MatcherOf(AnchoredControl), text, s, i);
  }

  lemma CciSite(text: string, s: string, i: nat)
    requires i <= |s| && Match(CciBlock, s, i).Some?
    requires forall k :: 0 <= k < i ==> Match(CciBlock, s, k).None?
    ensures var span := Match(CciBlock, s, i).value;
      ReplaceSites(CciBlock, text, s, 0) == s[..i] + span.groups[0] + "\n" + text
        + ReplaceSites(CciBlock, text, s, span.end)
  {
    GroupSite(MatcherOf(CciBlock), text, s, i);
  }

  /** At the first anchored control block, the text before it is kept, the
      anchor line, a newline, ten spaces and the control enumeration take
      the block's place, and the substitution goes on after the block. */
  lemma ControlSiteRewritten(s: string, i: nat)
    requires i <= |s| && Match(AnchoredControl, s, i).Some?
    requires forall k :: 0 <= k < i ==> Match(AnchoredControl, s, k).None?
    ensures var span := Match(AnchoredControl, s, i).value;
      ReplaceControlSites(s) == s[..i] + span.groups[0] + "\n" + ControlText
        + ReplaceSites(AnchoredControl, ControlText, s, span.end)
  {
    AnchoredSite(ControlText, s, i);
  }

  /** At the first CCI block, the text before it is kept, the `example:`
      line, a newline, ten spaces and the CCI enumeration (with a single
      backslash in its pattern) take the block's place, and the
      substitution goes on after the block. */
  lemma CciSiteRewritten(s: string, i: nat)
    requires i <= |s| && Match(CciBlock, s, i).Some?
    requires forall k :: 0 <= k < i ==> Match(CciBlock, s, k).None?
    ensures var span := Match(CciBlock, s, i).value;
      ReplaceCciSites(s) == s[..i] + span.groups[0] + "\n" + TenSpaces + CciInserted()
        + ReplaceSites(CciBlock, TenSpaces + CciInserted(), s, span.end)
  {
    CciSite(TenSpaces + CciInserted(), s, i);
    var span := Match(CciBlock, s, i).value;
    AppendAssoc(s[..i] + span.groups[0] + "\n", TenSpaces, CciInserted());
  }

  /** Text without an `x-faker` key passes through a substitution unchanged. */
  lemma AnchoredFakerFree(text: string, s: string)
    requires !Contains(s, "x-faker")
    ensures ReplaceSites(AnchoredControl, text, s, 0) == s
  {
    forall k | 0 <= k <= |s| ensures MatcherOf(AnchoredControl)(s, k).None? {
      if Match(AnchoredControl, s, k).Some? {
        FakerMatchNeedsFaker(AnchoredControl, s, k);
      }
    }
    SubWithNoMatch(MatcherOf(AnchoredControl), 1, GroupThenText(text), s, 0);
  }

  lemma CciFakerFree(text: string, s: string)
    requires !Contains(s, "x-faker")
    ensures ReplaceSites(CciBlock, text, s, 0) == s
  {
    forall k | 0 <= k <= |s| ensures MatcherOf(CciBlock)(s, k).None? {
      if Match(CciBlock, s, k).Some? {
        FakerMatchNeedsFaker(CciBlock, s, k);
      }
    }
    SubWithNoMatch(MatcherOf(CciBlock), 1, GroupThenText(text), s, 0);
  }

  /** Both substitutions leave text without an `x-faker` key as it is. */
  lemma StagesFakerFree(s: string)
    requires !Contains(s, "x-faker")
    ensures ReplaceControlSites(s) == s && ReplaceCciSites(s) == s
  {
    AnchoredFakerFree(ControlText, s);
    CciFakerFree(TenSpaces + CciInserted(), s);
  }

  /** The lazy scan for a control item ends just after the item's literal. */
  lemma FirstControlItemEnd(s: string, j: nat, lit: string)
    requires j <= |s| && FirstItem(s, j, ControlItem(lit)).Some?
    ensures var e := FirstItem(s, j, ControlItem(lit)).value;
      e >= |lit| && OccursAt(s, e - |lit|, lit)
  {
    FirstItemIsFirst(s, j, ControlItem(lit));
  }

  /** The captured group of an anchored control block is its anchor line. */
  lemma AnchoredGroupIs(s: string, i: nat)
    requires i <= |s| && Match(AnchoredControl, s, i).Some?
    ensures OccursAt(s, i, "acronym:") && LineEnd(s, i + 8) < |s|
    ensures Match(AnchoredControl, s, i).value.groups == [s[i..LineEnd(s, i + 8)]]
  {
    assert MatchAnchoredControl(s, i).Some?;
  }

  /** A line that starts with `acronym:` and is ended by a newline. */
  lemma AnchorLineShape(s: string, i: nat)
    requires OccursAt(s, i, "acronym:") && LineEnd(s, i + 8) < |s|
    ensures var g := s[i..LineEnd(s, i + 8)];
      OccursAt(s, i, g) && '\n' !in g && i + |g| < |s| && s[i + |g|] == '\n'
  {
    var n := LineEnd(s, i + 8);
    LineEndMaximal(s, i + 8);
    var g := s[i..n];
    forall k | 0 <= k < |g| ensures g[k] != '\n' {
      assert g[k] == s[i + k];
    }
  }

  /** An anchored control block starts with its anchor line, the captured
      group: `acronym:` and the rest of that line, which a newline follows. */
  lemma AnchoredGroupShape(s: string, i: nat)
    requires i <= |s| && Match(AnchoredControl, s, i).Some?
    ensures var g := Match(AnchoredControl, s, i).value.groups[0];
      && OccursAt(s, i, "acronym:") && OccursAt(s, i, g)
      && '\n' !in g && i + |g| < |s| && s[i + |g|] == '\n'
  {
    AnchoredGroupIs(s, i);
    GroupLineShape(s, i, Match(AnchoredControl, s, i).value.groups);
  }

  lemma GroupLineShape(s: string, i: nat, groups: seq<string>)
    requires OccursAt(s, i, "acronym:") && LineEnd(s, i + 8) < |s|
    requires groups == [s[i..LineEnd(s, i + 8)]]
    ensures var g := groups[0];
      && OccursAt(s, i, "acronym:") && OccursAt(s, i, g)
      && '\n' !in g && i + |g| < |s| && s[i + |g|] == '\n'
  {
    AnchorLineShape(s, i);
  }

  /** A control list opens with its `first` item and ends with the first
      `SI-4(11)` item after it. */
  lemma ControlListEnd(s: string, j: nat, first: string)
    requires j <= |s| && |first| > 0 && ControlList(s, j, first).Some?
    ensures var d := ListHead(s, j, first).value;
      var e := ControlList(s, j, first).value;
      EndsAfterStopItem(s, e) && OpensAndStops(s, first, d, e)
  {
    var a := BreakThen(s, j, "random.arrayElement:").value;
    var b := BreakThen(s, a, "-").value;
    var c := SpacedThen(s, b, "-").value;
    var d := SpacedThen(s, c, first).value;
    FirstControlItemEnd(s, d, "SI-4(11)");
    FirstItemIsFirst(s, d, ControlItem("SI-4(11)"));
  }

  /** An anchored control block ends right after the first `SI-4(11)` item
      that follows the `AC-1` item opening its list. */
  lemma AnchoredEnd(s: string, i: nat)
    requires i <= |s| && Match(AnchoredControl, s, i).Some?
    ensures var e := Match(AnchoredControl, s, i).value.end;
      && EndsAfterStopItem(s, e)
      && exists d :: i < d <= e && OpensAndStops(s, "AC-1", d, e)
  {
    var j := LineEnd(s, i + 8) + 1;
    AnchoredListEnd(s, i);
    FakerListEnd(s, j);
    assert i < FakerListHead(s, j);
  }

  /** The block ends where the `x-faker` list after its anchor line does. */
  lemma AnchoredListEnd(s: string, i: nat)
    requires i <= |s| && Match(AnchoredControl, s, i).Some?
    ensures var j := LineEnd(s, i + 8) + 1;
      i < j <= |s| && FakerList(s, j) == Some(Match(AnchoredControl, s, i).value.end)
  {
    assert MatchAnchoredControl(s, i).Some?;
  }

  /** Where the head of the list after an `x-faker:` key ends. */
  function FakerListHead(s: string, j: nat): nat
    requires j <= |s| && FakerList(s, j).Some?
  {
    ListHead(s, SpaceRunEnd(s, j) + 8, "AC-1").value
  }

  lemma FakerListEnd(s: string, j: nat)
    requires j <= |s| && FakerList(s, j).Some?
    ensures var e := FakerList(s, j).value;
      && EndsAfterStopItem(s, e)
      && j < FakerListHead(s, j) <= e && OpensAndStops(s, "AC-1", FakerListHead(s, j), e)
  {
    ControlListEnd(s, SpaceRunEnd(s, j) + 8, "AC-1");
  }

  /** What `BreakThen` reaches ends with its word. */
  lemma BreakThenWord(s: string, i: nat, w: string)
    requires i <= |s| && |w| > 0 && BreakThen(s, i, w).Some?
    ensures var r := BreakThen(s, i, w).value; r >= i + |w| && OccursAt(s, r - |w|, w)
  {
  }

  /** The lazy scan ends with the first item at or after where it starts. */
  lemma FirstItemStops(s: string, j: nat, item: Item)
    requires j <= |s| && FirstItem(s, j, item).Some?
    ensures StopsAtFirstItem(s, item, j, FirstItem(s, j, item).value)
  {
    FirstItemIsFirst(s, j, item);
  }

  /** The list of a CCI block ends with the first six-digit item after its
      `random.arrayElement:` key. */
  lemma CciListEnd(s: string, g: nat)
    requires g <= |s| && CciList(s, g).Some?
    ensures var e := CciList(s, g).value;
      exists a :: g + 20 <= a <= e && OccursAt(s, a - 20, "random.arrayElement:") && StopsAtFirstItem(s, CciItem, a, e)
  {
    var x := BreakThen(s, g, "x-faker:").value;
    var a := BreakThen(s, x, "random.arrayElement:").value;
    BreakThenWord(s, x, "random.arrayElement:");
    FirstItemStops(s, a, CciItem);
    assert g + 20 <= a <= CciList(s, g).value;
  }

  /** A CCI block ends right after the first six-digit item that follows
      its `random.arrayElement:` key. */
  lemma CciEnd(s: string, i: nat)
    requires i <= |s| && Match(CciBlock, s, i).Some?
    ensures var e := Match(CciBlock, s, i).value.end;
      exists a :: i + 20 <= a <= e && OccursAt(s, a - 20, "random.arrayElement:") && StopsAtFirstItem(s, CciItem, a, e)
  {
    assert MatchCciBlock(s, i).Some?;
    CciListEnd(s, QuotedSixDigits(s, SpaceRunEnd(s, i + 8)).value);
  }

  /** After an `acronym:` anchor line `g`, the line ends where `g` does. */
  lemma AnchorLineEnd(t: string, i: nat, g: string, rest: string)
    requires '\n' !in g && OccursAt(t, i, g + "\n" + rest) && OccursAt(t, i, "acronym:")
    ensures i + 8 <= i + |g| < |t| && LineEnd(t, i + 8) == i + |g|
  {
    var n := i + |g|;
    assert t[n] == (g + "\n" + rest)[|g|] == '\n';
    AnchorKeyOnOneLine(t, i);
    forall k | i + 8 <= k < n ensures t[k] != '\n' {
      assert t[k] == (g + "\n" + rest)[k - i] == g[k - i];
    }
    LineEndIs(t, i + 8, n);
  }

  /** The `acronym:` key holds no newline. */
  lemma AnchorKeyOnOneLine(t: string, i: nat)
    requires OccursAt(t, i, "acronym:")
    ensures forall k :: i <= k < i + 8 ==> t[k] != '\n'
  {
    forall k | i <= k < i + 8 ensures t[k] != '\n' {
      assert t[k] == t[i..i + 8][k - i];
    }
  }

  /** After the newline that ends `g`, a text of ten spaces and then a
      non-space gives a whitespace run of ten that stops at that character. */
  lemma SpacesAfterLine(t: string, i: nat, g: string, text: string)
    requires OccursAt(t, i, g + "\n" + text)
    requires |text| > 10 && AllSpace(text[..10]) && !IsSpace(text[10])
    ensures SpaceRunEnd(t, i + |g| + 1) == i + |g| + 11 && t[i + |g| + 11] == text[10]
  {
    var n := i + |g|;
    forall k | n + 1 <= k < n + 11 ensures IsSpace(t[k]) {
      assert t[k] == (g + "\n" + text)[k - i] == text[k - n - 1] == text[..10][k - n - 1];
    }
    assert t[n + 11] == (g + "\n" + text)[|g| + 11] == text[10];
    SpaceRunEndIs(t, n + 1, n + 11);
  }

  /** A rewritten control site no longer matches: after the anchor line the
      inserted text starts with spaces and then `enum:`, not `x-faker:`. */
  lemma AnchoredInert(t: string, i: nat, g: string, text: string)
    requires '\n' !in g && OccursAt(t, i, g + "\n" + text)
    requires |text| > 10 && AllSpace(text[..10]) && text[10] == 'e'
    ensures Match(AnchoredControl, t, i).None?
  {
    if OccursAt(t, i, "acronym:") {
      AnchorLineEnd(t, i, g, text);
      SpacesAfterLine(t, i, g, text);
      NoFakerListBeforeE(t, i + |g| + 1);
      AnchorWithoutFaker(t, i);
    }
  }

  /** An anchor line not followed by an `x-faker` list is not a match. */
  lemma AnchorWithoutFaker(s: string, i: nat)
    requires i + 8 <= |s| && LineEnd(s, i + 8) < |s|
    requires FakerList(s, LineEnd(s, i + 8) + 1).None?
    ensures MatchAnchoredControl(s, i).None?
  {
  }

  /** A whitespace run that stops at an `e` does not lead to `x-faker:`. */
  lemma NoFakerListBeforeE(s: string, j: nat)
    requires j <= |s| && SpaceRunEnd(s, j) < |s| && s[SpaceRunEnd(s, j)] == 'e'
    ensures FakerList(s, j).None?
  {
    OccursAtFirst(s, SpaceRunEnd(s, j), "x-faker:");
  }

  /** Ten spaces, then `enum:` and any body. */
  lemma SpacedEnumStart(body: string)
    ensures var t := TenSpaces + ("enum:" + body);
      |t| > 10 && AllSpace(t[..10]) && t[10] == 'e'
  {
    var t := TenSpaces + ("enum:" + body);
    assert t[..10] == TenSpaces;
  }

  /** The control text starts with ten spaces and then `enum:`. */
  lemma ControlTextStart()
    ensures |ControlText| > 10 && AllSpace(ControlText[..10]) && ControlText[10] == 'e'
  {
    SpacedEnumStart(RenderFamilies(ListedFamilies));
  }

  /** Where a control block was rewritten, the anchored pattern no longer
      matches, so a second run leaves the site alone. */
  lemma ControlRewriteInert(t: string, i: nat, g: string)
    requires '\n' !in g && OccursAt(t, i, g + "\n" + ControlText)
    ensures Match(AnchoredControl, t, i).None?
  {
    ControlTextStart();
    AnchoredInert(t, i, g, ControlText);
  }

  // ---------------------------------------------------------------------
  // A rewritten CCI site

  /** What a CCI block captures: `example:`, optional whitespace and six
      digits, optionally quoted, with nothing after them. */
  predicate CciGroup(g: string) {
    OccursAt(g, 0, "example:") && SpaceRunEnd(g, 8) <= |g| && QuotedSixDigits(g, SpaceRunEnd(g, 8)) == Some(|g|)
  }

  /** A whitespace run inside a copy of `g` ends where it ends in `g`, when
      it stops before the end of `g`. */
  lemma SpaceRunInside(t: string, i: nat, g: string, j: nat)
    requires OccursAt(t, i, g) && j <= |g| && SpaceRunEnd(g, j) < |g|
    ensures SpaceRunEnd(t, i + j) == i + SpaceRunEnd(g, j)
  {
    var e := SpaceRunEnd(g, j);
    SpaceRunEndMaximal(g, j);
    forall k | i + j <= k < i + e ensures IsSpace(t[k]) {
      assert t[k] == t[i..i + |g|][k - i] == g[k - i];
    }
    assert t[i + e] == t[i..i + |g|][e] == g[e];
    SpaceRunEndIs(t, i + j, i + e);
  }

  /** Optionally quoted six digits read the same in the slice that ends
      where they do. */
  lemma QuotedSixDigitsSlice(s: string, i: nat, w: nat)
    requires i <= w <= |s| && QuotedSixDigits(s, w).Some?
    ensures var ge := QuotedSixDigits(s, w).value;
      QuotedSixDigits(s[i..ge], w - i) == Some(ge - i)
  {
    var ge := QuotedSixDigits(s, w).value;
    var g := s[i..ge];
    assert forall k :: 0 <= k < |g| ==> g[k] == s[i + k];
  }

  /** Optionally quoted six digits that fill the rest of `g` read the same
      in a copy of `g` that a newline follows. */
  lemma QuotedSixDigitsInside(t: string, i: nat, g: string, w: nat)
    requires OccursAt(t, i, g) && w <= |g| && QuotedSixDigits(g, w) == Some(|g|)
    requires i + |g| < |t| && t[i + |g|] == '\n'
    ensures QuotedSixDigits(t, i + w) == Some(i + |g|)
  {
    assert forall k :: 0 <= k < |g| ==> t[i + k] == g[k] by {
      forall k | 0 <= k < |g| ensures t[i + k] == g[k] {
        assert t[i + k] == t[i..i + |g|][k];
      }
    }
  }

  /** A whitespace run that stops inside a slice stops at the same place
      in the slice. */
  lemma SpaceRunOfSlice(s: string, i: nat, j: nat, ge: nat)
    requires i <= j <= ge <= |s| && SpaceRunEnd(s, j) < ge
    ensures SpaceRunEnd(s[i..ge], j - i) == SpaceRunEnd(s, j) - i
  {
    var g := s[i..ge];
    var e := SpaceRunEnd(s, j);
    SpaceRunEndMaximal(s, j);
    forall k | j - i <= k < e - i ensures IsSpace(g[k]) {
      assert g[k] == s[i + k];
    }
    assert g[e - i] == s[e];
    SpaceRunEndIs(g, j - i, e - i);
  }

  /** The group a CCI block captures has the shape `CciGroup` describes. */
  lemma CciGroupIs(s: string, i: nat)
    requires i <= |s| && Match(CciBlock, s, i).Some?
    ensures CciGroup(Match(CciBlock, s, i).value.groups[0])
  {
    assert MatchCciBlock(s, i).Some?;
    var w := SpaceRunEnd(s, i + 8);
    var ge := QuotedSixDigits(s, w).value;
    var g := s[i..ge];
    assert Match(CciBlock, s, i).value.groups[0] == g;
    assert g[..8] == s[i..i + 8];
    SpaceRunOfSlice(s, i, i + 8, ge);
    QuotedSixDigitsSlice(s, i, w);
  }

  /** Ten spaces, then `pattern:` and any body. */
  lemma SpacedPatternStart(body: string)
    ensures var t := TenSpaces + (CciHead + body);
      |t| > 10 && AllSpace(t[..10]) && t[10] == 'p'
  {
    var t := TenSpaces + (CciHead + body);
    assert t[..10] == TenSpaces;
  }

  /** The CCI text starts with ten spaces and then the `p` of `pattern:`. */
  lemma CciTextStart()
    ensures var text := TenSpaces + CciInserted();
      |text| > 10 && AllSpace(text[..10]) && text[10] == 'p'
  {
    SpacedPatternStart("\\" + CciTail());
    AppendAssoc(CciHead, "\\", CciTail());
  }

  /** A whitespace run that stops at a `p` does not lead to `x-faker:`. */
  lemma NoFakerBeforeP(s: string, j: nat)
    requires j <= |s| && SpaceRunEnd(s, j) < |s| && s[SpaceRunEnd(s, j)] == 'p'
    ensures BreakThen(s, j, "x-faker:").None?
  {
    OccursAtFirst(s, SpaceRunEnd(s, j), "x-faker:");
  }

  /** An `example:` group followed by no `x-faker` list is not a match. */
  lemma CciWithoutFaker(s: string, i: nat, ge: nat)
    requires OccursAt(s, i, "example:") && QuotedSixDigits(s, SpaceRunEnd(s, i + 8)) == Some(ge)
    requires BreakThen(s, ge, "x-faker:").None?
    ensures Match(CciBlock, s, i).None?
  {
    assert CciList(s, ge).None?;
  }

  /** After a CCI group and its newline, ten spaces and then a `p` leave
      the CCI pattern without a match. */
  lemma CciInert(t: string, i: nat, g: string, text: string)
    requires CciGroup(g) && OccursAt(t, i, g + "\n" + text)
    requires |text| > 10 && AllSpace(text[..10]) && text[10] == 'p'
    ensures Match(CciBlock, t, i).None?
  {
    var full := g + "\n" + text;
    assert t[i..i + |full|][..|g|] == g;
    assert t[i + |g|] == full[|g|] == '\n';
    assert OccursAt(t, i, g);
    assert t[i..i + 8] == g[..8];
    var w := SpaceRunEnd(g, 8);
    SpaceRunInside(t, i, g, 8);
    QuotedSixDigitsInside(t, i, g, w);
    SpacesAfterLine(t, i, g, text);
    NoFakerBeforeP(t, i + |g|);
    CciWithoutFaker(t, i, i + |g|);
  }

  /** Where a CCI block was rewritten, the CCI pattern no longer matches:
      after the `example:` line the inserted text starts with spaces and
      then `pattern:`, not `x-faker:`. */
  lemma CciRewriteInert(t: string, i: nat, g: string)
    requires CciGroup(g) && OccursAt(t, i, g + "\n" + TenSpaces + CciInserted())
    ensures Match(CciBlock, t, i).None?
  {
    CciTextStart();
    AppendAssoc(g + "\n", TenSpaces, CciInserted());
    CciInert(t, i, g, TenSpaces + CciInserted());
  }
}
