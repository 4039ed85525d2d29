/**
  The fixed regular expressions of the normalisers, each as a hand-written
  matcher that returns what Python's backtracking `re` engine returns at one
  start position, together with `re.search`, `re.sub` (leftmost,
  non-overlapping, scanning left to right) and the replacement-template
  language of `re.sub`.

  Every pattern here is built from greedy whitespace runs that must be
  followed by a non-whitespace character, fixed words, optional quotes and
  lazy scans, so at each start position at most one match exists and the
  matcher computes it without backtracking.
*/
module Regex {
  import opened Text

  datatype Option<T> = None | Some(value: T) {
    predicate IsFailure() {
      None?
    }

    function PropagateFailure<U>(): Option<U>
      requires None?
    {
      None
    }

    function Extract(): T
      requires Some?
    {
      value
    }
  }

  /** A match: where the consumed span ends, and the text of each capturing group. */
  datatype Span = Span(end: nat, groups: seq<string>)

  /** The fixed patterns; each one's matcher below spells out its regular expression. */
  datatype Pattern =
    | AnchoredControl
    | BareControl
    | CciBlock
    | InvalidItem(literal: string)
    | OrphanBlock
    | EnumComment

  function GroupCount(p: Pattern): nat {
    match p
    case AnchoredControl => 1
    case CciBlock => 1
    case EnumComment => 2
    case _ => 0
  }

  /** The patterns whose every match runs through an `x-faker:` key. */
  predicate FakerPattern(p: Pattern) {
    p.AnchoredControl? || p.BareControl? || p.CciBlock? || p.OrphanBlock?
  }

  /** Where the greedy run `\s*` that starts at `i` stops. */
  function SpaceRunEnd(s: string, i: nat): (j: nat)
    requires i <= |s|
    ensures i <= j <= |s|
    decreases |s| - i
  {
    if i < |s| && IsSpace(s[i]) then SpaceRunEnd(s, i + 1) else i
  }

  /** The run is all whitespace and stops at a non-space or the end. */
  lemma {:induction false} SpaceRunEndMaximal(s: string, i: nat)
    requires i <= |s|
    ensures forall k :: i <= k < SpaceRunEnd(s, i) ==> IsSpace(s[k])
    ensures SpaceRunEnd(s, i) == |s| || !IsSpace(s[SpaceRunEnd(s, i)])
    decreases |s| - i
  {
    if i < |s| && IsSpace(s[i]) {
      SpaceRunEndMaximal(s, i + 1);
    }
  }

  /** Where the greedy run `\w*` that starts at `i` stops. */
  function WordRunEnd(s: string, i: nat): (j: nat)
    requires i <= |s|
    ensures i <= j <= |s|
    decreases |s| - i
  {
    if i < |s| && IsWordChar(s[i]) then WordRunEnd(s, i + 1) else i
  }

  /** Where `.*` (without DOTALL) that starts at `i` stops: the next newline, or the end. */
  function LineEnd(s: string, i: nat): (j: nat)
    requires i <= |s|
    ensures i <= j <= |s|
    decreases |s| - i
  {
    if i < |s| && s[i] != '\n' then LineEnd(s, i + 1) else i
  }

  /** The line holds no newline and stops at a newline or the end. */
  lemma {:induction false} LineEndMaximal(s: string, i: nat)
    requires i <= |s|
    ensures forall k :: i <= k < LineEnd(s, i) ==> s[k] != '\n'
    ensures LineEnd(s, i) == |s| || s[LineEnd(s, i)] == '\n'
    decreases |s| - i
  {
    if i < |s| && s[i] != '\n' {
      LineEndMaximal(s, i + 1);
    }
  }

  /** A whitespace run that ends at a non-space (or the end) is the greedy run. */
  lemma SpaceRunEndIs(s: string, i: nat, e: nat)
    requires i <= e <= |s| && (forall k :: i <= k < e ==> IsSpace(s[k])) && (e == |s| || !IsSpace(s[e]))
    ensures SpaceRunEnd(s, i) == e
  {
    SpaceRunEndMaximal(s, i);
  }

  /** A newline-free stretch that ends at a newline (or the end) is the line. */
  lemma LineEndIs(s: string, i: nat, e: nat)
    requires i <= e <= |s| && (forall k :: i <= k < e ==> s[k] != '\n') && (e == |s| || s[e] == '\n')
    ensures LineEnd(s, i) == e
  {
    LineEndMaximal(s, i);
  }

  /** The whitespace run `s[i..j]` holds a newline that is followed by at
      least one more character of the run. */
  predicate HasBreak(s: string, i: nat, j: nat)
    requires j <= |s|
  {
    exists k :: i <= k && k + 1 < j && s[k] == '\n'
  }

  /** `\s*\n\s+` followed by the word `w` (which starts with a non-space),
      from `i`; the position after `w`. */
  function BreakThen(s: string, i: nat, w: string): (r: Option<nat>)
    requires i <= |s| && |w| > 0
    ensures r.Some? ==> i < r.value <= |s|
  {
    var j := SpaceRunEnd(s, i);
    if HasBreak(s, i, j) && OccursAt(s, j, w) then Some(j + |w|) else None
  }

  /** `\s+` followed by the word `w` (which starts with a non-space), from `i`. */
  function SpacedThen(s: string, i: nat, w: string): (r: Option<nat>)
    requires i <= |s| && |w| > 0
    ensures r.Some? ==> i < r.value <= |s|
  {
    var j := SpaceRunEnd(s, i);
    if j > i && OccursAt(s, j, w) then Some(j + |w|) else None
  }

  /** The optional quote `['"]?` at `k`: how many characters it takes. */
  function Quote(s: string, k: nat): nat {
    if k < |s| && (s[k] == '\'' || s[k] == '"') then 1 else 0
  }

  /** `\d{6}` at `k`. */
  predicate SixDigitsAt(s: string, k: nat) {
    k + 6 <= |s| && forall j :: k <= j < k + 6 ==> IsDigit(s[j])
  }

  /** The list items the lazy scans stop at: `-\s+<lit>` for a control, and
      `-\s+['"]?\d{6}['"]?` for a CCI. */
  datatype Item = ControlItem(lit: string) | CciItem

  function ItemAt(s: string, j: nat, item: Item): (r: Option<nat>)
    requires j <= |s|
    ensures r.Some? ==> j < r.value <= |s|
  {
    if j == |s| || s[j] != '-' then None
    else
      match item
      case ControlItem(lit) =>
        if |lit| == 0 then None else SpacedThen(s, j + 1, lit)
      case CciItem =>
        var e := SpaceRunEnd(s, j + 1);
        var q := e + Quote(s, e);
        if e == j + 1 || !SixDigitsAt(s, q) then None
        else Some(q + 6 + Quote(s, q + 6))
  }

  /** The lazy scan `[\s\S]*?` followed by an item: the first position at or
      after `j` where the item matches. */
  function FirstItem(s: string, j: nat, item: Item): (r: Option<nat>)
    requires j <= |s|
    ensures r.Some? ==> j < r.value <= |s|
    decreases |s| - j
  {
    if j == |s| then None
    else if ItemAt(s, j, item).Some? then ItemAt(s, j, item)
    else FirstItem(s, j + 1, item)
  }

  /** The lazy scan stops at the first position where the item matches. */
  lemma {:induction false} FirstItemIsFirst(s: string, j: nat, item: Item)
    requires j <= |s|
    ensures FirstItem(s, j, item).Some? ==>
      exists k :: j <= k < |s| && FirstItem(s, j, item) == ItemAt(s, k, item) &&
        (forall m :: j <= m < k ==> ItemAt(s, m, item).None?)
    ensures FirstItem(s, j, item).None? ==> forall m :: j <= m < |s| ==> ItemAt(s, m, item).None?
    decreases |s| - j
  {
    if j < |s| && ItemAt(s, j, item).None? {
      FirstItemIsFirst(s, j + 1, item);
    }
  }

  /** The lookahead `(?=\n\s{0,10}\w+:|$)` at `k`. */
  predicate StopAt(s: string, k: nat)
    requires k <= |s|
  {
    || k == |s|
    || (k == |s| - 1 && s[k] == '\n')
    || (s[k] == '\n' &&
        var w := SpaceRunEnd(s, k + 1);
        var e := WordRunEnd(s, w);
        w - (k + 1) <= 10 && e > w && e < |s| && s[e] == ':')
  }

  /** The lazy scan `[\s\S]*?` followed by the lookahead: the first stop at or after `k`. */
  function FirstStop(s: string, k: nat): (r: nat)
    requires k <= |s|
    ensures k <= r <= |s| && StopAt(s, r)
    ensures forall j :: k <= j < r ==> !StopAt(s, j)
    decreases |s| - k
  {
    if StopAt(s, k) then k else FirstStop(s, k + 1)
  }

  /** `(acronym:.*?)\n\s+x-faker:\s*\n\s+random\.arrayElement:\s*\n\s+-\s+-\s+AC-1[\s\S]*?-\s+SI-4\(11\)` at `i`. */
  function MatchAnchoredControl(s: string, i: nat): (m: Option<Span>)
    requires i <= |s|
    ensures m.Some? ==> i < m.value.end <= |s| && |m.value.groups| == 1
  {
    if !OccursAt(s, i, "acronym:") then None
    else
      var n := LineEnd(s, i + 8);
      if n == |s| then None
      else
        match FakerList(s, n + 1)
        case None => None
        case Some(e) => Some(Span(e, [s[i..n]]))
  }

  /** What the anchored control pattern matches after its anchor line and
      newline: `\s+x-faker:`, then the control list with first item `AC-1`. */
  function FakerList(s: string, j: nat): (r: Option<nat>)
    requires j <= |s|
    ensures r.Some? ==> j < r.value <= |s|
  {
    var x := SpaceRunEnd(s, j);
    if x == j || !OccursAt(s, x, "x-faker:") then None
    else ControlList(s, x + 8, "AC-1")
  }

  /** What both control patterns match after their `x-faker:` key:
      `\s*\n\s+random\.arrayElement:\s*\n\s+-\s+-\s+<first>`, then the lazy
      scan up to the item `-\s+SI-4\(11\)`; the position after that item. */
  function ControlList(s: string, j: nat, first: string): (r: Option<nat>)
    requires j <= |s| && |first| > 0
    ensures r.Some? ==> j < r.value <= |s|
  {
    var d :- ListHead(s, j, first);
    FirstItem(s, d, ControlItem("SI-4(11)"))
  }

  /** The head of a control list, `\s*\n\s+random\.arrayElement:\s*\n\s+-\s+-\s+<first>`
      from `j`: the position after its first item. */
  function ListHead(s: string, j: nat, first: string): (r: Option<nat>)
    requires j <= |s| && |first| > 0
    ensures r.Some? ==> j < r.value <= |s|
  {
    var a :- BreakThen(s, j, "random.arrayElement:");
    var b :- BreakThen(s, a, "-");
    var c :- SpacedThen(s, b, "-");
    SpacedThen(s, c, first)
  }

  /** The position `e` is just past an `SI-4(11)` item, the item at which
      the lazy scan of both control patterns stops. */
  predicate EndsAfterStopItem(s: string, e: nat) {
    e >= 8 && OccursAt(s, e - 8, "SI-4(11)")
  }

  /** `e` is the end of the first `item` that starts at or after `d`: no
      such item starts between `d` and the one that ends at `e`. */
  predicate StopsAtFirstItem(s: string, item: Item, d: nat, e: nat) {
    exists k :: d <= k < e <= |s| && ItemAt(s, k, item) == Some(e)
      && forall m :: d <= m < k ==> ItemAt(s, m, item).None?
  }

  /** A control list whose opening item `first` ends at `d` closes at `e`,
      just past the first `SI-4(11)` item after that opening item. */
  predicate OpensAndStops(s: string, first: string, d: nat, e: nat) {
    |first| <= d && OccursAt(s, d - |first|, first) && StopsAtFirstItem(s, ControlItem("SI-4(11)"), d, e)
  }

  /** `x-faker:\s*\n\s+random\.arrayElement:\s*\n\s+-\s+-\s+AC-1\n.*?-\s+SI-4\(11\)` (DOTALL) at `i`. */
  function MatchBareControl(s: string, i: nat): (m: Option<Span>)
    requires i <= |s|
    ensures m.Some? ==> i < m.value.end <= |s| && |m.value.groups| == 0
  {
    if !OccursAt(s, i, "x-faker:") then None
    else
      var e :- ControlList(s, i + 8, "AC-1\n");
      Some(Span(e, []))
  }

  /** `(example:\s*['"]?\d{6}['"]?)\s*\n\s+x-faker:\s*\n\s+random\.arrayElement:[\s\S]*?-\s+['"]?\d{6}['"]?` at `i`. */
  function MatchCciBlock(s: string, i: nat): (m: Option<Span>)
    requires i <= |s|
    ensures m.Some? ==> i < m.value.end <= |s| && |m.value.groups| == 1
  {
    if !OccursAt(s, i, "example:") then None
    else
      var w := SpaceRunEnd(s, i + 8);
      var g :- QuotedSixDigits(s, w);
      var e :- CciList(s, g);
      Some(Span(e, [s[i..g]]))
  }

  /** `['"]?\d{6}['"]?` at `w`: where the optionally quoted six digits end. */
  function QuotedSixDigits(s: string, w: nat): (r: Option<nat>)
    requires w <= |s|
    ensures r.Some? ==> w < r.value <= |s|
  {
    var q := w + Quote(s, w);
    if !SixDigitsAt(s, q) then None
    else Some(q + 6 + Quote(s, q + 6))
  }

  /** What the CCI pattern matches after its `example:` group:
      `\s*\n\s+x-faker:\s*\n\s+random\.arrayElement:`, then the lazy scan up
      to a six-digit item; the position after that item. */
  function CciList(s: string, g: nat): (r: Option<nat>)
    requires g <= |s|
    ensures r.Some? ==> g < r.value <= |s|
  {
    var x :- BreakThen(s, g, "x-faker:");
    var a :- BreakThen(s, x, "random.arrayElement:");
    FirstItem(s, a, CciItem)
  }

  /** `-\s+<lit>\n` at `i`. */
  function MatchInvalidItem(lit: string, s: string, i: nat): (m: Option<Span>)
    requires i <= |s|
    ensures m.Some? ==> i < m.value.end <= |s| && |m.value.groups| == 0
  {
    if i == |s| || s[i] != '-' then None
    else
      var e :- SpacedThen(s, i + 1, lit + "\n");
      Some(Span(e, []))
  }

  /** `\s*x-faker:\s*\n\s+random\.arrayElement:[\s\S]*?(?=\n\s{0,10}\w+:|$)` at `i`. */
  function MatchOrphanBlock(s: string, i: nat): (m: Option<Span>)
    requires i <= |s|
    ensures m.Some? ==> i < m.value.end <= |s| && |m.value.groups| == 0
  {
    var j := SpaceRunEnd(s, i);
    if !OccursAt(s, j, "x-faker:") then None
    else
      var a :- BreakThen(s, j + 8, "random.arrayElement:");
      Some(Span(FirstStop(s, a), []))
  }

  /** `\n(\s+)enum:\n(\s+)#` at `i`. */
  function MatchEnumComment(s: string, i: nat): (m: Option<Span>)
    requires i <= |s|
    ensures m.Some? ==> i < m.value.end <= |s| && |m.value.groups| == 2
  {
    if i == |s| || s[i] != '\n' then None
    else
      var g := SpaceRunEnd(s, i + 1);
      if g == i + 1 || !OccursAt(s, g, "enum:\n") then None
      else
        var h := SpaceRunEnd(s, g + 6);
        if h == g + 6 || h == |s| || s[h] != '#' then None
        else Some(Span(h + 1, [s[i + 1..g], s[g + 6..h]]))
  }

  /** The match of `p` that starts at index `i` of `s`, if any. */
  function Match(p: Pattern, s: string, i: nat): (m: Option<Span>)
    requires i <= |s|
    ensures m.Some? ==> i < m.value.end <= |s| && |m.value.groups| == GroupCount(p)
  {
    match p
    case AnchoredControl => MatchAnchoredControl(s, i)
    case BareControl => MatchBareControl(s, i)
    case CciBlock => MatchCciBlock(s, i)
    case InvalidItem(lit) => MatchInvalidItem(lit, s, i)
    case OrphanBlock => MatchOrphanBlock(s, i)
    case EnumComment => MatchEnumComment(s, i)
  }

  /** `re.search(p, s)` finds something. */
  predicate Search(p: Pattern, s: string) {
    exists i :: 0 <= i <= |s| && Match(p, s, i).Some?
  }

  // ---------------------------------------------------------------------
  // Replacement templates

  /** A parsed replacement template is a sequence of characters and group references. */
  datatype Piece = Chr(c: char) | Ref(group: nat)

  /** The characters a template escape `\c` stands for, when `c` is one of
      the escapes Python's template parser translates. */
  function EscapeChar(c: char): Option<char> {
    match c
    case '\\' => Some('\\')
    case 'n' => Some('\n')
    case 't' => Some('\t')
    case 'r' => Some('\r')
    case 'a' => Some('\U{7}')
    case 'b' => Some('\U{8}')
    case 'f' => Some('\U{C}')
    case 'v' => Some('\U{B}')
    case _ => None
  }

  predicate IsAsciiLetter(c: char) {
    ('a' <= c <= 'z') || ('A' <= c <= 'Z')
  }

  /** How `re.sub` reads its replacement string: `\1`..`\9` (not followed by
      another digit) refer to a group, the escapes of `EscapeChar` stand for
      their character, any other ASCII letter after a backslash is an error,
      and a backslash before any other character is kept together with it.
      A trailing lone backslash is an error. `\0`, `\g<…>` and multi-digit
      group numbers are not part of this model and read as errors. */
  function ParseTemplate(t: string): (r: Option<seq<Piece>>)
    decreases |t|
  {
    if |t| == 0 then Some([])
    else if t[0] != '\\' then
      var rest :- ParseTemplate(t[1..]);
      Some([Chr(t[0])] + rest)
    else if |t| == 1 then None
    else
      var c := t[1];
      if '1' <= c <= '9' then
        if |t| > 2 && IsDigit(t[2]) then None
        else
          var rest :- ParseTemplate(t[2..]);
          Some([Ref(c as int - '0' as int)] + rest)
      else if c == '0' || c == 'g' then None
      else if EscapeChar(c).Some? then
        var rest :- ParseTemplate(t[2..]);
        Some([Chr(EscapeChar(c).value)] + rest)
      else if IsAsciiLetter(c) then None
      else
        var rest :- ParseTemplate(t[2..]);
        Some([Chr('\\'), Chr(c)] + rest)
  }

  /** Every group reference names one of the pattern's `n` groups. */
  predicate RefsWithin(pieces: seq<Piece>, n: nat) {
    forall k :: 0 <= k < |pieces| && pieces[k].Ref? ==> 1 <= pieces[k].group <= n
  }

  /** The template `t` is one `re.sub` accepts for the pattern `p`. */
  predicate TemplateFor(p: Pattern, t: string) {
    ParseTemplate(t).Some? && RefsWithin(ParseTemplate(t).value, GroupCount(p))
  }

  /** The text a parsed template produces for one match. */
  function Fill(pieces: seq<Piece>, groups: seq<string>): string
    requires RefsWithin(pieces, |groups|)
  {
    if |pieces| == 0 then ""
    else
      (match pieces[0]
       case Chr(c) => [c]
       case Ref(n) => groups[n - 1])
      + Fill(pieces[1..], groups)
  }

  /** The pieces of a template without backslashes: one character each. */
  function Chars(a: string): (r: seq<Piece>)
    ensures |r| == |a| && RefsWithin(r, 0)
    ensures forall k :: 0 <= k < |a| ==> r[k] == Chr(a[k])
  {
    if |a| == 0 then [] else [Chr(a[0])] + Chars(a[1..])
  }

  lemma {:induction false} FillAppend(x: seq<Piece>, y: seq<Piece>, groups: seq<string>)
    requires RefsWithin(x, |groups|) && RefsWithin(y, |groups|)
    ensures RefsWithin(x + y, |groups|)
    ensures Fill(x + y, groups) == Fill(x, groups) + Fill(y, groups)
  {
    if |x| > 0 {
      FillAppend(x[1..], y, groups);
      assert (x + y)[0] == x[0];
      assert (x + y)[1..] == x[1..] + y;
    } else {
      assert x + y == y;
    }
  }

  lemma {:induction false} FillChars(a: string, groups: seq<string>)
    ensures Fill(Chars(a), groups) == a
  {
    if |a| > 0 {
      FillChars(a[1..], groups);
      assert Chars(a)[1..] == Chars(a[1..]);
    }
  }

  /** A template prefix without backslashes stands for itself. */
  lemma {:induction false} ParsePlainPrefix(a: string, b: string)
    requires '\\' !in a && ParseTemplate(b).Some?
    ensures ParseTemplate(a + b) == Some(Chars(a) + ParseTemplate(b).value)
  {
    if |a| > 0 {
      assert (a + b)[0] == a[0] != '\\';
      assert (a + b)[1..] == a[1..] + b;
      ParsePlainPrefix(a[1..], b);
      var rest := ParseTemplate(b).value;
      assert ParseTemplate(a + b) == Some([Chr(a[0])] + (Chars(a[1..]) + rest));
      assert Chars(a) == [Chr(a[0])] + Chars(a[1..]);
      assert Chars(a) + rest == [Chr(a[0])] + (Chars(a[1..]) + rest);
    } else {
      assert a + b == b;
      assert Chars(a) + ParseTemplate(b).value == ParseTemplate(b).value;
    }
  }

  /** A template without backslashes is taken literally. */
  lemma ParsePlain(a: string)
    requires '\\' !in a
    ensures ParseTemplate(a) == Some(Chars(a))
  {
    ParsePlainPrefix(a, "");
    assert a + "" == a;
  }

  /** `\1` followed by something other than a digit is a reference to group 1. */
  lemma ParseGroupOne(b: string)
    requires ParseTemplate(b).Some? && (|b| == 0 || !IsDigit(b[0]))
    ensures ParseTemplate("\\1" + b) == Some([Ref(1)] + ParseTemplate(b).value)
  {
    assert ("\\1" + b)[2..] == b;
  }

  /** An escape that the parser translates, such as `\n` or `\\`. */
  lemma ParseEscape(c: char, b: string)
    requires EscapeChar(c).Some? && ParseTemplate(b).Some?
    ensures ParseTemplate(['\\', c] + b) == Some([Chr(EscapeChar(c).value)] + ParseTemplate(b).value)
  {
    var t := ['\\', c] + b;
    assert t[0] == '\\' && t[1] == c && t[2..] == b;
    assert !('1' <= c <= '9') && c != '0' && c != 'g';
  }

  // ---------------------------------------------------------------------
  // re.sub

  /** A matcher: the match at each start position of a text, if any. */
  type Matcher = (string, nat) -> Option<Span>

  /** Every match of `m` consumes at least one character, stays inside the
      text and has `n` groups. */
  ghost predicate Sound(m: Matcher, n: nat) {
    forall s: string, i: nat :: i <= |s| && m(s, i).Some? ==>
      i < m(s, i).value.end <= |s| && |m(s, i).value.groups| == n
  }

  /** The matcher of the pattern `p`. */
  function MatcherOf(p: Pattern): (m: Matcher)
    ensures Sound(m, GroupCount(p))
    ensures forall s: string, i: nat :: i <= |s| ==> m(s, i) == Match(p, s, i)
  {
    (s: string, i: nat) => if i <= |s| then Match(p, s, i) else None
  }

  /** The scan of `re.sub` from index `i` on: at each position either the
      match there is replaced and the scan resumes after it, or the character
      is copied. */
  function SubWith(m: Matcher, n: nat, pieces: seq<Piece>, s: string, i: nat): string
    requires Sound(m, n) && RefsWithin(pieces, n) && i <= |s|
    decreases |s| - i
  {
    if i == |s| then ""
    else
      match m(s, i)
      case Some(span) => Fill(pieces, span.groups) + SubWith(m, n, pieces, s, span.end)
      case None => [s[i]] + SubWith(m, n, pieces, s, i + 1)
  }

  /** `re.sub(p, t, s)`. */
  function Sub(p: Pattern, t: string, s: string): string
    requires TemplateFor(p, t)
  {
    SubWith(MatcherOf(p), GroupCount(p), ParseTemplate(t).value, s, 0)
  }

  /** Where no match starts, the scan copies the text. */
  lemma {:induction false} SubWithNoMatch(m: Matcher, n: nat, pieces: seq<Piece>, s: string, i: nat)
    requires Sound(m, n) && RefsWithin(pieces, n) && i <= |s|
    requires forall k :: i <= k <= |s| ==> m(s, k).None?
    ensures SubWith(m, n, pieces, s, i) == s[i..]
    decreases |s| - i
  {
    if i < |s| {
      SubWithNoMatch(m, n, pieces, s, i + 1);
      assert s[i..] == [s[i]] + s[i + 1..];
    }
  }

  /** Up to the next match, the scan copies the text. */
  lemma {:induction false} SubWithCopies(m: Matcher, n: nat, pieces: seq<Piece>, s: string, i: nat, j: nat)
    requires Sound(m, n) && RefsWithin(pieces, n) && i <= j <= |s|
    requires forall k :: i <= k < j ==> m(s, k).None?
    ensures SubWith(m, n, pieces, s, i) == s[i..j] + SubWith(m, n, pieces, s, j)
    decreases j - i
  {
    if i < j {
      SubWithCopies(m, n, pieces, s, i + 1, j);
      assert m(s, i).None?;
      assert s[i..j] == [s[i]] + s[i + 1..j];
      AppendAssoc([s[i]], s[i + 1..j], SubWith(m, n, pieces, s, j));
    }
  }

  /** Deleting every match never lengthens the text, and shortens it as
      soon as one match starts at or after `i`. */
  lemma {:induction false} DeleteWithShrinks(m: Matcher, n: nat, s: string, i: nat)
    requires Sound(m, n) && i <= |s|
    ensures |SubWith(m, n, [], s, i)| <= |s| - i
    ensures (exists k :: i <= k <= |s| && m(s, k).Some?) ==> |SubWith(m, n, [], s, i)| < |s| - i
    decreases |s| - i
  {
    if i < |s| {
      match m(s, i)
      case Some(span) =>
        DeleteWithShrinks(m, n, s, span.end);
      case None =>
        DeleteWithShrinks(m, n, s, i + 1);
        if exists k :: i <= k <= |s| && m(s, k).Some? {
          var k :| i <= k <= |s| && m(s, k).Some?;
          assert i + 1 <= k;
        }
    }
  }

  /** At a match, the scan emits the template's text and resumes after the match. */
  lemma SubWithAtMatch(m: Matcher, n: nat, pieces: seq<Piece>, s: string, i: nat)
    requires Sound(m, n) && RefsWithin(pieces, n) && i <= |s| && m(s, i).Some?
    ensures SubWith(m, n, pieces, s, i) ==
      Fill(pieces, m(s, i).value.groups) + SubWith(m, n, pieces, s, m(s, i).value.end)
  {
  }

  /** The scan copies the text before the first match, replaces that match
      and goes on after it. */
  lemma SubWithAtFirst(m: Matcher, n: nat, pieces: seq<Piece>, s: string, i: nat)
    requires Sound(m, n) && RefsWithin(pieces, n) && i <= |s| && m(s, i).Some?
    requires forall k :: 0 <= k < i ==> m(s, k).None?
    ensures SubWith(m, n, pieces, s, 0) ==
      s[..i] + Fill(pieces, m(s, i).value.groups) + SubWith(m, n, pieces, s, m(s, i).value.end)
  {
    SubWithCopies(m, n, pieces, s, 0, i);
    SubWithAtMatch(m, n, pieces, s, i);
    assert s[0..i] == s[..i];
  }

  /** When `re.search` finds nothing, `re.sub` returns its input. */
  lemma NoSearchNoChange(p: Pattern, t: string, s: string)
    requires TemplateFor(p, t) && !Search(p, s)
    ensures Sub(p, t, s) == s
  {
    SubWithNoMatch(MatcherOf(p), GroupCount(p), ParseTemplate(t).value, s, 0);
  }

  /** With an empty replacement, `re.sub` changes the text exactly when
      `re.search` finds the pattern. */
  lemma DeleteChangesIffFound(p: Pattern, s: string)
    ensures TemplateFor(p, "")
    ensures Sub(p, "", s) != s <==> Search(p, s)
  {
    assert ParseTemplate("") == Some([]);
    DeleteWithShrinks(MatcherOf(p), GroupCount(p), s, 0);
    if !Search(p, s) {
      NoSearchNoChange(p, "", s);
    }
  }

  /** Every match of an `x-faker` pattern runs through an `x-faker` key, so
      the text holds one. */
  lemma FakerMatchNeedsFaker(p: Pattern, s: string, i: nat)
    requires i <= |s| && FakerPattern(p) && Match(p, s, i).Some?
    ensures Contains(s, "x-faker")
  {
    match p
    case AnchoredControl => AnchoredMatchNeedsFaker(s, i);
    case BareControl => BareMatchNeedsFaker(s, i);
    case CciBlock => CciMatchNeedsFaker(s, i);
    case OrphanBlock => OrphanMatchNeedsFaker(s, i);
  }

  lemma AnchoredMatchNeedsFaker(s: string, i: nat)
    requires i <= |s| && MatchAnchoredControl(s, i).Some?
    ensures Contains(s, "x-faker")
  {
    FakerListNeedsFaker(s, LineEnd(s, i + 8) + 1);
  }

  lemma FakerListNeedsFaker(s: string, j: nat)
    requires j <= |s| && FakerList(s, j).Some?
    ensures Contains(s, "x-faker")
  {
    FakerAt(s, SpaceRunEnd(s, j));
  }

  lemma BareMatchNeedsFaker(s: string, i: nat)
    requires i <= |s| && MatchBareControl(s, i).Some?
    ensures Contains(s, "x-faker")
  {
    FakerAt(s, i);
  }

  lemma OrphanMatchNeedsFaker(s: string, i: nat)
    requires i <= |s| && MatchOrphanBlock(s, i).Some?
    ensures Contains(s, "x-faker")
  {
    FakerAt(s, SpaceRunEnd(s, i));
  }

  lemma CciMatchNeedsFaker(s: string, i: nat)
    requires i <= |s| && MatchCciBlock(s, i).Some?
    ensures Contains(s, "x-faker")
  {
    var g := QuotedSixDigits(s, SpaceRunEnd(s, i + 8)).value;
    CciListNeedsFaker(s, g);
  }

  lemma CciListNeedsFaker(s: string, g: nat)
    requires g <= |s| && CciList(s, g).Some?
    ensures Contains(s, "x-faker")
  {
    assert BreakThen(s, g, "x-faker:").Some?;
    FakerAt(s, SpaceRunEnd(s, g));
  }

  lemma FakerAt(s: string, x: nat)
    requires OccursAt(s, x, "x-faker:")
    ensures Contains(s, "x-faker")
  {
    assert s[x..x + 7] == s[x..x + 8][..7];
    assert OccursAt(s, x, "x-faker");
  }

  /** Text without an `x-faker` key is left alone by every `x-faker` pattern. */
  lemma FakerFreeUnchanged(p: Pattern, t: string, s: string)
    requires FakerPattern(p) && TemplateFor(p, t) && !Contains(s, "x-faker")
    ensures Sub(p, t, s) == s
  {
    if Search(p, s) {
      var i :| 0 <= i <= |s| && Match(p, s, i).Some?;
      FakerMatchNeedsFaker(p, s, i);
    }
    NoSearchNoChange(p, t, s);
  }
}
