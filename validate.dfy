/**
  The diagnostics script: the separator check, the scan for pattern lines
  and leftover `x-faker` keys, the top-level shape check of the parsed
  documents, and the verdict `main` reaches from them. The YAML parser is
  not part of this model: its result is an input, `None` when it reports a
  syntax error and otherwise the list of parsed documents. Reading the file
  and printing are not modelled.
*/
module Validate {
  import opened Text
  import opened Regex
  import opened Separators

  // ---------------------------------------------------------------------
  // Numbered listings

  /** `[(i, x) for i, x in enumerate(xs[:n], 1) if f(x)]`. */
  function Listed<T>(f: T -> bool, xs: seq<T>, n: nat): (r: seq<(nat, T)>)
    requires n <= |xs|
    ensures |r| <= n
  {
    if n == 0 then []
    else Listed(f, xs, n - 1) + (if f(xs[n - 1]) then [(n, xs[n - 1])] else [])
  }

  /** The numbers of a listing. */
  function Numbers<T>(pairs: seq<(nat, T)>): (r: seq<nat>)
    ensures |r| == |pairs| && forall k :: 0 <= k < |pairs| ==> r[k] == pairs[k].0
  {
    seq(|pairs|, k requires 0 <= k < |pairs| => pairs[k].0)
  }

  /** The first `n` entries, or all of them when there are fewer: `s[:n]`. */
  function Take<T>(s: seq<T>, n: nat): (r: seq<T>)
    ensures |r| == (if |s| < n then |s| else n) && r == s[..|r|]
  {
    if |s| < n then s else s[..n]
  }

  /** A listing names, with its 1-based number, exactly the entries among
      the first `n` for which `f` holds. */
  lemma {:induction false} ListedIff<T>(f: T -> bool, xs: seq<T>, n: nat)
    requires n <= |xs|
    ensures forall m: nat, x: T :: (m, x) in Listed(f, xs, n) <==> 1 <= m <= n && x == xs[m - 1] && f(x)
  {
    if n > 0 {
      ListedIff(f, xs, n - 1);
    }
  }

  /** The entries of a listing name, by their 1-based numbers in `1..n`,
      entries for which `f` holds, and the numbers ascend strictly. */
  lemma {:induction false} ListedAscending<T>(f: T -> bool, xs: seq<T>, n: nat)
    requires n <= |xs|
    ensures forall a :: 0 <= a < |Listed(f, xs, n)| ==>
      1 <= Listed(f, xs, n)[a].0 <= n && Listed(f, xs, n)[a].1 == xs[Listed(f, xs, n)[a].0 - 1]
        && f(Listed(f, xs, n)[a].1)
    ensures forall a, b :: 0 <= a < b < |Listed(f, xs, n)| ==> Listed(f, xs, n)[a].0 < Listed(f, xs, n)[b].0
  {
    if n > 0 {
      ListedAscending(f, xs, n - 1);
      var prev := Listed(f, xs, n - 1);
      var r := Listed(f, xs, n);
      assert r == prev + (if f(xs[n - 1]) then [(n, xs[n - 1])] else []);
      forall a | 0 <= a < |r| ensures 1 <= r[a].0 <= n && r[a].1 == xs[r[a].0 - 1] && f(r[a].1) {
        if a < |prev| {
          assert r[a] == prev[a];
          assert 1 <= prev[a].0 <= n - 1;
        } else {
          assert r[a] == (n, xs[n - 1]);
        }
      }
      forall a, b | 0 <= a < b < |r| ensures r[a].0 < r[b].0 {
        assert r[a] == prev[a];
        assert prev[a].0 <= n - 1;
        if b < |prev| {
          assert r[b] == prev[b];
        } else {
          assert r[b] == (n, xs[n - 1]);
        }
      }
    }
  }

  /** An entry for which `f` holds is listed with its number. */
  lemma ListedWitness<T>(f: T -> bool, xs: seq<T>, k: nat)
    requires k < |xs| && f(xs[k])
    ensures (k + 1, xs[k]) in Listed(f, xs, |xs|) && |Listed(f, xs, |xs|)| > 0
  {
    ListedIff(f, xs, |xs|);
  }

  /** The first `n` numbers of a listing lie in its range, name entries for
      which `f` holds, and ascend strictly. */
  lemma TakeNumbers<T>(f: T -> bool, xs: seq<T>, n: nat)
    ensures var r := Take(Numbers(Listed(f, xs, |xs|)), n);
      && (forall a :: 0 <= a < |r| ==> 1 <= r[a] <= |xs| && f(xs[r[a] - 1]))
      && (forall a, b :: 0 <= a < b < |r| ==> r[a] < r[b])
  {
    ListedAscending(f, xs, |xs|);
  }

  // ---------------------------------------------------------------------
  // check_multiple_documents

  /** `content.count('\n---\n') + content.count('\n--- \n')`. */
  function SeparatorCount(content: string): nat {
    Count(content, "\n---\n") + Count(content, "\n--- \n")
  }

  /** What the separator check finds: the separator count, and, when it is
      positive, the numbered lines whose strip is `---`. */
  datatype SeparatorReport = SeparatorReport(found: nat, markers: seq<(nat, string)>)

  /** `check_multiple_documents`, with the printed listing as a result; it
      returns True exactly when `found` is positive. */
  function CheckMultipleDocuments(content: string): SeparatorReport {
    var found := SeparatorCount(content);
    var lines := Split(content);
    if found > 0 then SeparatorReport(found, Listed(IsMarker, lines, |lines|)) else SeparatorReport(0, [])
  }

  /** The check fires exactly when a marker line of either form stands between
      two newlines. */
  lemma MultipleIffSeparator(content: string)
    ensures CheckMultipleDocuments(content).found > 0
        <==> Contains(content, "\n---\n") || Contains(content, "\n--- \n")
  {
    CountPositiveIffContains(content, "\n---\n");
    CountPositiveIffContains(content, "\n--- \n");
  }

  lemma DashesAreMarkers()
    ensures IsMarker("---") && IsMarker("--- ")
  {
    assert RStrip("---") == "---";
    assert RStrip("--- ") == RStrip("---");
    assert LStrip("---") == "---";
  }

  /** A newline-free `x` between two newlines is a whole line after the first. */
  lemma LineBetweenNewlines(content: string, x: string)
    requires '\n' !in x && Contains(content, "\n" + x + "\n")
    ensures var lines := Split(content); exists k :: 0 < k < |lines| && lines[k] == x
  {
    JoinSplit(content);
    JoinContainsLine(Split(content), x);
  }

  /** When a separator is counted, some line after the first is `---` or
      `--- `. */
  lemma MarkerLineExists(content: string)
    requires SeparatorCount(content) > 0
    ensures var lines := Split(content); exists k :: 0 < k < |lines| && (lines[k] == "---" || lines[k] == "--- ")
  {
    CountPositiveIffContains(content, "\n---\n");
    CountPositiveIffContains(content, "\n--- \n");
    var x := if Contains(content, "\n---\n") then "---" else "--- ";
    assert "\n" + x + "\n" == (if x == "---" then "\n---\n" else "\n--- \n");
    LineBetweenNewlines(content, x);
  }

  /** When the check fires, it lists the marker lines, numbered from 1
      (`ListedIff`), and there is at least one of them. */
  lemma FlaggedListsMarkers(content: string)
    requires SeparatorCount(content) > 0
    ensures var r := CheckMultipleDocuments(content);
      var lines := Split(content);
      r.markers == Listed(IsMarker, lines, |lines|) && |r.markers| > 0
  {
    var lines := Split(content);
    MarkerLineExists(content);
    var k :| 0 < k < |lines| && (lines[k] == "---" || lines[k] == "--- ");
    DashesAreMarkers();
    assert IsMarker(lines[k]);
    ListedWitness(IsMarker, lines, k);
  }

  /** The first line cannot start a separator: no `\n` stands before it. */
  lemma LeadingLineUncounted(rest: string, p: string)
    requires |p| > 0 && p[0] == '\n'
    ensures Count("---\n" + rest, p) == Count("\n" + rest, p)
  {
    var s := "---" + ("\n" + rest);
    assert "---\n" + rest == s;
    forall k | 0 <= k < 3 ensures !OccursAt(s, k, p) {
      assert s[k] == "---"[k] == '-';
      OccursAtFirst(s, k, p);
    }
    CountAfterPrefix("---", "\n" + rest, p);
  }

  /** A marker on the first line is never counted: only separators after
      it are, so a document that opens with `---` and has no other marker
      line is not flagged. */
  lemma LeadingMarkerNotFlagged(rest: string)
    ensures CheckMultipleDocuments("---\n" + rest).found == SeparatorCount("\n" + rest)
    ensures CheckMultipleDocuments("---\n" + rest).found == 0
        <==> !Contains("\n" + rest, "\n---\n") && !Contains("\n" + rest, "\n--- \n")
  {
    LeadingLineUncounted(rest, "\n---\n");
    LeadingLineUncounted(rest, "\n--- \n");
    CountPositiveIffContains("\n" + rest, "\n---\n");
    CountPositiveIffContains("\n" + rest, "\n--- \n");
  }

  // ---------------------------------------------------------------------
  // check_pattern_issues

  predicate HasPatternKey(line: string) {
    Contains(line, "pattern:")
  }

  predicate HasFaker(line: string) {
    Contains(line, "x-faker")
  }

  /** What the pattern scan finds: every `pattern:` line numbered from 1, the
      first five of them (the ones shown), the number of `enum:` occurrences,
      the `x-faker` line numbers shown, and the issues. */
  datatype PatternReport = PatternReport(
    patternLines: seq<(nat, string)>,
    shown: seq<(nat, string)>,
    enumCount: nat,
    fakerLines: seq<nat>,
    issues: seq<string>)

  /** `check_pattern_issues`. Every line holding `pattern:` is listed; the
      backslash test in the loop only selects a `continue` at the end of the
      loop body, so it excludes nothing. An issue is reported exactly when
      `x-faker` occurs, and the `x-faker` line numbers shown with it are
      `FakerLines`. */
  method CheckPatternIssues(content: string) returns (r: PatternReport)
    ensures var lines := Split(content);
      forall m: nat, line :: (m, line) in r.patternLines <==> 1 <= m <= |lines| && line == lines[m - 1] && HasPatternKey(line)
    ensures forall a, b :: 0 <= a < b < |r.patternLines| ==> r.patternLines[a].0 < r.patternLines[b].0
    ensures |r.shown| == (if |r.patternLines| < 5 then |r.patternLines| else 5)
    ensures r.shown == r.patternLines[..|r.shown|]
    ensures r.enumCount == Count(content, "enum:")
    ensures r.issues == [] || r.issues == ["x-faker references still present"]
    ensures r.issues != [] <==> Contains(content, "x-faker")
    ensures r.fakerLines == FakerLines(content)
  {
    var lines := Split(content);
    var patternLines: seq<(nat, string)> := [];
    for i := 0 to |lines|
      invariant patternLines == Listed(HasPatternKey, lines, i)
    {
      if HasPatternKey(lines[i]) {
        patternLines := patternLines + [(i + 1, lines[i])];
      }
    }
    ListedIff(HasPatternKey, lines, |lines|);
    ListedAscending(HasPatternKey, lines, |lines|);
    var shown := Take(patternLines, 5);
    var enumCount := Count(content, "enum:");
    var fakerLines: seq<nat> := [];
    var issues: seq<string> := [];
    if Contains(content, "x-faker") {
      fakerLines := Take(Numbers(Listed(HasFaker, lines, |lines|)), 10);
      issues := issues + ["x-faker references still present"];
    }
    r := PatternReport(patternLines, shown, enumCount, fakerLines, issues);
  }

  /** The `x-faker` line numbers shown when the text holds `x-faker`:
      `[i+1 for i, line in enumerate(lines) if 'x-faker' in line][:10]`. */
  function FakerLines(content: string): seq<nat> {
    var lines := Split(content);
    if Contains(content, "x-faker") then Take(Numbers(Listed(HasFaker, lines, |lines|)), 10) else []
  }

  /** The shown `x-faker` lines are present exactly when the text holds
      `x-faker`; there are at most ten, each is the 1-based number of a line
      holding `x-faker`, and they ascend. */
  lemma FakerLinesShape(content: string)
    ensures var r := FakerLines(content);
      var lines := Split(content);
      && |r| <= 10
      && (r != [] <==> Contains(content, "x-faker"))
      && (forall a :: 0 <= a < |r| ==> 1 <= r[a] <= |lines| && HasFaker(lines[r[a] - 1]))
      && (forall a, b :: 0 <= a < b < |r| ==> r[a] < r[b])
  {
    var lines := Split(content);
    if Contains(content, "x-faker") {
      FakerLinesListed(content);
      TakeNumbers(HasFaker, lines, 10);
      assert FakerLines(content) == Take(Numbers(Listed(HasFaker, lines, |lines|)), 10);
    } else {
      assert FakerLines(content) == [];
    }
  }

  /** Text holding `x-faker` has at least one line holding it. */
  lemma FakerLinesListed(content: string)
    requires Contains(content, "x-faker")
    ensures var lines := Split(content); |Listed(HasFaker, lines, |lines|)| > 0
  {
    var lines := Split(content);
    JoinSplit(content);
    JoinContains(lines, "x-faker");
    var k :| 0 <= k < |lines| && Contains(lines[k], "x-faker");
    ListedWitness(HasFaker, lines, k);
  }

  // ---------------------------------------------------------------------
  // check_openapi_structure

  /** A parsed YAML value: null, a scalar that is neither a string nor a
      container (a number, a boolean, a timestamp), a string, a list, or a
      mapping with string keys. */
  datatype Node =
    | Null
    | Scalar(text: string)
    | Str(s: string)
    | Sequence(items: seq<Node>)
    | Mapping(fields: map<string, Node>)

  /** How the shape check ends: with a result, or with an exception. */
  datatype Outcome = Returned(valid: bool) | Raised

  /** `'title' in info`, and `info['title']` when that holds, raise: `in` is
      undefined on null and on plain scalars, and a string or list that
      holds `'title'` cannot be indexed by it. */
  predicate TitleLookupRaises(info: Node) {
    match info
    case Mapping(_) => false
    case Str(s) => Contains(s, "title")
    case Sequence(items) => Str("title") in items
    case _ => true
  }

  /** `len(paths)` raises on null and on plain scalars. */
  predicate LenRaises(paths: Node) {
    paths.Null? || paths.Scalar?
  }

  /** `check_openapi_structure`. */
  function CheckOpenapiStructure(docs: seq<Node>): Outcome {
    if |docs| == 0 then Returned(false)
    else match docs[0]
      case Mapping(fields) =>
        if "openapi" !in fields && "swagger" !in fields then Returned(false)
        else if "info" in fields && TitleLookupRaises(fields["info"]) then Raised
        else if "paths" in fields && LenRaises(fields["paths"]) then Raised
        else Returned(true)
      case _ => Returned(false)
  }

  /** A document that declares its version and whose `info` and `paths`
      sections, where present, are mappings passes the check. */
  predicate WellShaped(doc: Node) {
    && doc.Mapping?
    && ("openapi" in doc.fields || "swagger" in doc.fields)
    && ("info" in doc.fields ==> doc.fields["info"].Mapping?)
    && ("paths" in doc.fields ==> doc.fields["paths"].Mapping?)
  }

  /** The check returns false exactly for an empty list, a first document
      that is not a mapping, or one with neither version key; it returns true
      for a well-shaped first document; otherwise it raises or returns true,
      whatever `info` and `paths` hold. */
  lemma StructureOutcomes(docs: seq<Node>)
    ensures CheckOpenapiStructure(docs) == Returned(false)
        <==> |docs| == 0 || !docs[0].Mapping? || ("openapi" !in docs[0].fields && "swagger" !in docs[0].fields)
    ensures |docs| > 0 && WellShaped(docs[0]) ==> CheckOpenapiStructure(docs) == Returned(true)
    ensures CheckOpenapiStructure(docs) != Returned(false) ==> |docs| > 0 && docs[0].Mapping?
  {
  }

  /** Only the first document is inspected. */
  lemma OnlyFirstDocument(docs: seq<Node>, others: seq<Node>)
    requires |docs| > 0
    ensures CheckOpenapiStructure(docs) == CheckOpenapiStructure([docs[0]] + others)
  {
  }

  // ---------------------------------------------------------------------
  // main

  /** The result `main` prints. */
  datatype Verdict =
    | SyntaxError
    | UnexpectedError
    | MultipleDocuments
    | PotentialIssues(issues: seq<string>)
    | AppearsValid

  /** The exit status: 1 after a syntax error or an exception, 0 otherwise. */
  function ExitStatus(v: Verdict): nat {
    if v.SyntaxError? || v.UnexpectedError? then 1 else 0
  }

  /** `main` once the file is read: a syntax error ends the run; otherwise
      the pattern scan runs, the shape check runs when there are documents
      (its exception ends the run, its result is discarded), and the verdict
      is the separator finding, else the issues, else that the file appears
      valid. */
  method Validate(content: string, parsed: Option<seq<Node>>) returns (v: Verdict)
    ensures v == SyntaxError <==> parsed.None?
    ensures v == UnexpectedError
        <==> parsed.Some? && |parsed.value| > 0 && CheckOpenapiStructure(parsed.value) == Raised
    ensures parsed.Some? && (|parsed.value| == 0 || CheckOpenapiStructure(parsed.value) != Raised) ==>
      v == (if Contains(content, "\n---\n") || Contains(content, "\n--- \n") then MultipleDocuments
            else if Contains(content, "x-faker") then PotentialIssues(["x-faker references still present"])
            else AppearsValid)
    ensures ExitStatus(v) == 1
        <==> parsed.None? || (parsed.Some? && |parsed.value| > 0 && CheckOpenapiStructure(parsed.value) == Raised)
  {
    var separators := CheckMultipleDocuments(content);
    MultipleIffSeparator(content);
    var hasMultiple := separators.found > 0;
    if parsed.None? {
      v := SyntaxError;
    } else {
      var docs := parsed.value;
      var report := CheckPatternIssues(content);
      if |docs| > 0 && CheckOpenapiStructure(docs) == Raised {
        v := UnexpectedError;
      } else if hasMultiple {
        v := MultipleDocuments;
      } else if report.issues != [] {
        v := PotentialIssues(report.issues);
      } else {
        v := AppearsValid;
      }
    }
    var status := ExitStatus(v);
    assert status == 1 <==> v.SyntaxError? || v.UnexpectedError?;
    assert v.SyntaxError? <==> parsed.None?;
  }
}
