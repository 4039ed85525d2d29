/**
  The rule both separator loops apply to the lines of a document: a line
  whose stripped text is `---` is a document marker; the first marker is
  kept when it lies in the first five lines, and every other marker is
  dropped. Every other line is kept, in order.

  The rule only looks at which lines are markers, so it is stated over the
  sequence of marker flags; `Marks` computes those flags from the lines.
*/
module Separators {
  import opened Text

  predicate IsMarker(line: string) {
    Strip(line) == "---"
  }

  /** The flag `f` gives each entry. */
  function Flags<T>(f: T -> bool, xs: seq<T>): (m: seq<bool>)
    ensures |m| == |xs| && forall i :: 0 <= i < |xs| ==> m[i] == f(xs[i])
  {
    seq(|xs|, i requires 0 <= i < |xs| => f(xs[i]))
  }

  /** The marker flag of every line. */
  function Marks(lines: seq<string>): seq<bool> {
    Flags(IsMarker, lines)
  }

  /** Line `i` survives: it is no marker, or it is the first marker and one
      of the first five lines. */
  predicate KeptAt(marks: seq<bool>, i: nat)
    requires i < |marks|
  {
    !marks[i] || (i < 5 && forall j :: 0 <= j < i ==> !marks[j])
  }

  /** How many of the first `n` entries survive. */
  function KeptCount(marks: seq<bool>, n: nat): nat
    requires n <= |marks|
  {
    if n == 0 then 0 else KeptCount(marks, n - 1) + (if KeptAt(marks, n - 1) then 1 else 0)
  }

  /** The surviving entries among the first `n`, in order. */
  function Retained<T>(xs: seq<T>, marks: seq<bool>, n: nat): (r: seq<T>)
    requires |xs| == |marks| && n <= |xs|
    ensures |r| == KeptCount(marks, n)
  {
    if n == 0 then []
    else Retained(xs, marks, n - 1) + (if KeptAt(marks, n - 1) then [xs[n - 1]] else [])
  }

  /** The number of markers among the first `n` lines. */
  function MarkerCount(marks: seq<bool>, n: nat): nat
    requires n <= |marks|
  {
    if n == 0 then 0 else MarkerCount(marks, n - 1) + (if marks[n - 1] then 1 else 0)
  }

  /** The number of kept markers among the first `n` lines. */
  function KeptMarkers(marks: seq<bool>, n: nat): nat
    requires n <= |marks|
  {
    if n == 0 then 0
    else KeptMarkers(marks, n - 1) + (if marks[n - 1] && KeptAt(marks, n - 1) then 1 else 0)
  }

  /** Every line would survive the rule. */
  predicate Settled(marks: seq<bool>) {
    forall a :: 0 <= a < |marks| ==> KeptAt(marks, a)
  }

  /** In a settled document there is at most one marker, and it is one of
      the first five lines. */
  lemma SettledHasOneMarker(marks: seq<bool>)
    requires Settled(marks)
    ensures forall a, b :: 0 <= a < b < |marks| && marks[a] ==> !marks[b]
    ensures forall a :: 0 <= a < |marks| && marks[a] ==> a < 5
  {
    forall a, b | 0 <= a < b < |marks| && marks[a] ensures !marks[b] {
      assert KeptAt(marks, b);
    }
    forall a | 0 <= a < |marks| && marks[a] ensures a < 5 {
      assert KeptAt(marks, a);
    }
  }

  /** Before the first marker nothing is dropped. */
  lemma {:induction false} RetainedBeforeMarker<T>(xs: seq<T>, marks: seq<bool>, n: nat)
    requires |xs| == |marks| && n <= |xs| && forall j :: 0 <= j < n ==> !marks[j]
    ensures Retained(xs, marks, n) == xs[..n]
  {
    if n > 0 {
      RetainedBeforeMarker(xs, marks, n - 1);
      assert KeptAt(marks, n - 1);
      assert xs[..n] == xs[..n - 1] + [xs[n - 1]];
    }
  }

  /** What survives is settled. */
  lemma {:induction false} RetainedSettled(marks: seq<bool>, n: nat)
    requires n <= |marks|
    ensures Settled(Retained(marks, marks, n))
  {
    if n > 0 {
      RetainedSettled(marks, n - 1);
      var before := Retained(marks, marks, n - 1);
      var r := Retained(marks, marks, n);
      if KeptAt(marks, n - 1) {
        assert r == before + [marks[n - 1]];
        forall a | 0 <= a < |r| ensures KeptAt(r, a) {
          if a < |before| {
            assert r[a] == before[a];
            assert KeptAt(before, a);
            assert forall j :: 0 <= j < a ==> r[j] == before[j];
          } else if marks[n - 1] {
            RetainedBeforeMarker(marks, marks, n - 1);
            assert r == marks[..n];
          }
        }
      } else {
        assert r == before;
      }
    }
  }

  /** A settled document is left as it is. */
  lemma {:induction false} RetainedOfSettled<T>(xs: seq<T>, marks: seq<bool>, n: nat)
    requires |xs| == |marks| && n <= |xs| && Settled(marks)
    ensures Retained(xs, marks, n) == xs[..n]
  {
    if n > 0 {
      RetainedOfSettled(xs, marks, n - 1);
      assert KeptAt(marks, n - 1);
      assert xs[..n] == xs[..n - 1] + [xs[n - 1]];
    }
  }

  lemma FlagsSnoc<T>(f: T -> bool, xs: seq<T>, x: T)
    ensures Flags(f, xs + [x]) == Flags(f, xs) + [f(x)]
  {
  }

  /** The flags of the surviving entries are the surviving flags. */
  lemma {:induction false} FlagsOfRetained<T>(f: T -> bool, xs: seq<T>, n: nat)
    requires n <= |xs|
    ensures Flags(f, Retained(xs, Flags(f, xs), n)) == Retained(Flags(f, xs), Flags(f, xs), n)
  {
    if n > 0 {
      FlagsOfRetained(f, xs, n - 1);
      var marks := Flags(f, xs);
      if KeptAt(marks, n - 1) {
        FlagsSnoc(f, Retained(xs, marks, n - 1), xs[n - 1]);
      }
    }
  }

  /** The first line always survives, so something survives of a non-empty document. */
  lemma RetainedNonEmpty<T>(xs: seq<T>, marks: seq<bool>)
    requires |xs| == |marks| && |xs| > 0
    ensures |Retained(xs, marks, |xs|)| > 0
  {
    RetainedPrefixLength(xs, marks, |xs|);
  }

  lemma {:induction false} RetainedPrefixLength<T>(xs: seq<T>, marks: seq<bool>, n: nat)
    requires |xs| == |marks| && 0 < n <= |xs|
    ensures |Retained(xs, marks, n)| > 0
  {
    if n == 1 {
      assert KeptAt(marks, 0);
    } else {
      RetainedPrefixLength(xs, marks, n - 1);
    }
  }

  /** Surviving lines come from the input and keep their relative order. */
  lemma {:induction false} RetainedFromInput<T>(xs: seq<T>, marks: seq<bool>, n: nat)
    requires |xs| == |marks| && n <= |xs|
    ensures forall a :: 0 <= a < |Retained(xs, marks, n)| ==> Retained(xs, marks, n)[a] in xs[..n]
  {
    if n > 0 {
      RetainedFromInput(xs, marks, n - 1);
      assert forall a :: 0 <= a < n - 1 ==> xs[..n - 1][a] == xs[..n][a];
    }
  }

  /** At most one marker survives, and it is one of the first five lines. */
  lemma {:induction false} KeptMarkersAtMostOne(marks: seq<bool>, n: nat)
    requires n <= |marks|
    ensures KeptMarkers(marks, n) <= 1
    ensures KeptMarkers(marks, n) == 1 <==> exists j :: 0 <= j < n && j < 5 && marks[j]
  {
    if n > 0 {
      KeptMarkersAtMostOne(marks, n - 1);
      if marks[n - 1] && KeptAt(marks, n - 1) {
        assert forall j :: 0 <= j < n - 1 ==> !marks[j];
      } else if marks[n - 1] && n - 1 < 5 {
        var j :| 0 <= j < n - 1 && marks[j];
        assert j < 5;
      }
    }
  }

  /** What the loops test for a marker line: no marker has been kept yet
      and the line is one of the first five. */
  lemma KeptMarkerIff(marks: seq<bool>, i: nat)
    requires i < |marks| && marks[i]
    ensures KeptAt(marks, i) <==> KeptMarkers(marks, i) == 0 && i < 5
  {
    KeptMarkersAtMostOne(marks, i);
  }

  /** `marks[k]` is the marker test of line `k`, as the loops evaluate it. */
  predicate MarkedAs(lines: seq<string>, marks: seq<bool>, k: nat)
    requires k < |lines| == |marks|
  {
    marks[k] == (Strip(lines[k]) == "---")
  }

  /** The marker flags are the loops' marker tests, line by line. */
  lemma MarksMarked(lines: seq<string>)
    ensures |Marks(lines)| == |lines|
    ensures forall k {:trigger MarkedAs(lines, Marks(lines), k)} :: 0 <= k < |lines| ==> MarkedAs(lines, Marks(lines), k)
  {
  }

  /** One step of the separator loops, in the terms they test: a marker is
      kept exactly when none has been kept yet and it is one of the first
      five lines, and the counts grow by what line `i` contributes. */
  lemma MarkerStep(marks: seq<bool>, i: nat)
    requires i < |marks|
    ensures KeptMarkers(marks, i) <= 1
    ensures KeptAt(marks, i) <==> !marks[i] || (KeptMarkers(marks, i) == 0 && i < 5)
    ensures KeptMarkers(marks, i + 1) == KeptMarkers(marks, i) + (if marks[i] && KeptAt(marks, i) then 1 else 0)
    ensures MarkerCount(marks, i + 1) == MarkerCount(marks, i) + (if marks[i] then 1 else 0)
  {
    KeptMarkersAtMostOne(marks, i);
    if marks[i] {
      KeptMarkerIff(marks, i);
    }
  }

  /** A marker is kept or dropped, never both. */
  lemma {:induction false} KeptMarkersBound(marks: seq<bool>, n: nat)
    requires n <= |marks|
    ensures KeptMarkers(marks, n) <= MarkerCount(marks, n)
  {
    if n > 0 {
      KeptMarkersBound(marks, n - 1);
    }
  }

  /** Surviving lines have no newline when no input line has one. */
  lemma {:induction false} RetainedNoNewlines(lines: seq<string>, marks: seq<bool>, n: nat)
    requires |lines| == |marks| && n <= |lines| && NoNewlines(lines)
    ensures NoNewlines(Retained(lines, marks, n))
  {
    if n > 0 {
      RetainedNoNewlines(lines, marks, n - 1);
    }
  }

  /** The text both separator loops produce: the surviving lines, joined. */
  function Deduplicate(content: string): string {
    var lines := Split(content);
    Join(Retained(lines, Marks(lines), |lines|))
  }

  /** The lines of the result are the surviving lines, and they are settled:
      at most one marker, and it is one of the first five lines. */
  lemma DeduplicateLines(content: string)
    ensures var lines := Split(content);
      Split(Deduplicate(content)) == Retained(lines, Marks(lines), |lines|)
    ensures Settled(Marks(Split(Deduplicate(content))))
  {
    var lines := Split(content);
    var kept := Retained(lines, Marks(lines), |lines|);
    RetainedNoNewlines(lines, Marks(lines), |lines|);
    RetainedNonEmpty(lines, Marks(lines));
    SplitJoin(kept);
    FlagsOfRetained(IsMarker, lines, |lines|);
    RetainedSettled(Marks(lines), |lines|);
  }

  /** A settled document is left whole. */
  lemma RetainedAllOfSettled<T>(xs: seq<T>, marks: seq<bool>)
    requires |xs| == |marks| && Settled(marks)
    ensures Retained(xs, marks, |xs|) == xs
  {
    RetainedOfSettled(xs, marks, |xs|);
    assert xs[..|xs|] == xs;
  }

  /** Removing the separators a second time changes nothing. */
  lemma DeduplicateIdempotent(content: string)
    ensures Deduplicate(Deduplicate(content)) == Deduplicate(content)
  {
    var d := Deduplicate(content);
    DeduplicateLines(content);
    var kept := Split(d);
    RetainedAllOfSettled(kept, Marks(kept));
    JoinSplit(d);
  }

  /** The entries whose flag is false, in order. */
  function Unflagged<T>(xs: seq<T>, marks: seq<bool>): seq<T>
    requires |xs| == |marks|
  {
    if |xs| == 0 then []
    else Unflagged(xs[..|xs| - 1], marks[..|xs| - 1]) + (if marks[|xs| - 1] then [] else [xs[|xs| - 1]])
  }

  lemma UnflaggedSnoc<T>(xs: seq<T>, marks: seq<bool>, x: T, b: bool)
    requires |xs| == |marks|
    ensures Unflagged(xs + [x], marks + [b]) == Unflagged(xs, marks) + (if b then [] else [x])
  {
    assert (xs + [x])[..|xs|] == xs;
    assert (marks + [b])[..|xs|] == marks;
  }

  /** Every unflagged entry survives, in order. */
  lemma {:induction false} RetainedKeepsUnflagged<T>(xs: seq<T>, marks: seq<bool>, n: nat)
    requires |xs| == |marks| && n <= |xs|
    ensures Unflagged(Retained(xs, marks, n), Retained(marks, marks, n)) == Unflagged(xs[..n], marks[..n])
  {
    if n > 0 {
      RetainedKeepsUnflagged(xs, marks, n - 1);
      assert xs[..n] == xs[..n - 1] + [xs[n - 1]];
      assert marks[..n] == marks[..n - 1] + [marks[n - 1]];
      UnflaggedSnoc(xs[..n - 1], marks[..n - 1], xs[n - 1], marks[n - 1]);
      if KeptAt(marks, n - 1) {
        UnflaggedSnoc(Retained(xs, marks, n - 1), Retained(marks, marks, n - 1), xs[n - 1], marks[n - 1]);
      } else {
        assert marks[n - 1];
        assert Retained(xs, marks, n) == Retained(xs, marks, n - 1);
        assert Retained(marks, marks, n) == Retained(marks, marks, n - 1);
      }
    }
  }

  lemma RetainedAllKeepsUnflagged<T>(xs: seq<T>, marks: seq<bool>)
    requires |xs| == |marks|
    ensures Unflagged(Retained(xs, marks, |xs|), Retained(marks, marks, |xs|)) == Unflagged(xs, marks)
  {
    calc {
      Unflagged(Retained(xs, marks, |xs|), Retained(marks, marks, |xs|));
    == { RetainedKeepsUnflagged(xs, marks, |xs|); }
      Unflagged(xs[..|xs|], marks[..|xs|]);
    == { assert xs[..|xs|] == xs && marks[..|xs|] == marks; }
      Unflagged(xs, marks);
    }
  }

  /** Every line that is not a marker survives separator removal, in order. */
  lemma DeduplicateKeepsUnmarked(content: string)
    ensures var lines := Split(content);
      var out := Split(Deduplicate(content));
      Unflagged(out, Marks(out)) == Unflagged(lines, Marks(lines))
  {
    var lines := Split(content);
    DeduplicateLines(content);
    FlagsOfRetained(IsMarker, lines, |lines|);
    RetainedAllKeepsUnflagged(lines, Marks(lines));
  }

  /** A document whose lines all survive is left as it is. */
  lemma DeduplicateSettled(content: string)
    requires Settled(Marks(Split(content)))
    ensures Deduplicate(content) == content
  {
    var lines := Split(content);
    RetainedAllOfSettled(lines, Marks(lines));
    JoinSplit(content);
  }

  /** A document without marker lines is left as it is. */
  lemma DeduplicateUnmarked(content: string)
    requires forall k :: 0 <= k < |Split(content)| ==> !IsMarker(Split(content)[k])
    ensures Deduplicate(content) == content
  {
    DeduplicateSettled(content);
  }

  /** A line that neither starts nor ends in whitespace is a marker only
      when it is `---` itself. */
  lemma TrimmedLineMarker(line: string)
    requires line == [] || (!IsSpace(line[0]) && !IsSpace(line[|line| - 1]))
    ensures IsMarker(line) <==> line == "---"
  {
  }
}
