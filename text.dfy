/**
  Character classes and the handful of Python string operations the normalisers
  use: `strip`, `rstrip`, `split('\n')`, `'\n'.join`, `in` and `count` on
  strings, and the decimal rendering that f-strings give a natural number.
*/
module Text {

  /** The characters for which Python's `str.isspace()` holds: the set that
      `strip()`, `rstrip()` and the regex class `\s` (on str patterns) use. */
  predicate IsSpace(c: char) {
    || ('\t' <= c <= '\r')              // \t \n \v \f \r
    || ('\U{1C}' <= c <= '\U{1F}')      // file, group, record, unit separators
    || c == ' ' || c == '\U{85}' || c == '\U{A0}' || c == '\U{1680}'
    || ('\U{2000}' <= c <= '\U{200A}')
    || c == '\U{2028}' || c == '\U{2029}' || c == '\U{202F}' || c == '\U{205F}' || c == '\U{3000}'
  }

  /** The regex class `\d`, restricted to ASCII digits. */
  predicate IsDigit(c: char) {
    '0' <= c <= '9'
  }

  /** The regex class `\w`, restricted to ASCII letters, digits and underscore. */
  predicate IsWordChar(c: char) {
    ('a' <= c <= 'z') || ('A' <= c <= 'Z') || IsDigit(c) || c == '_'
  }

  predicate AllSpace(s: string) {
    forall k :: 0 <= k < |s| ==> IsSpace(s[k])
  }

  /** `s.rstrip()`: the longest prefix of `s` that does not end in whitespace. */
  function RStrip(s: string): (r: string)
    ensures r <= s
    ensures r == [] || !IsSpace(r[|r| - 1])
  {
    if |s| > 0 && IsSpace(s[|s| - 1]) then RStrip(s[..|s| - 1]) else s
  }

  /** What `rstrip` drops is whitespace. */
  lemma {:induction false} RStripDropsSpaces(s: string)
    ensures AllSpace(s[|RStrip(s)|..])
  {
    if |s| > 0 && IsSpace(s[|s| - 1]) {
      var init := s[..|s| - 1];
      RStripDropsSpaces(init);
      assert s[|RStrip(s)|..] == init[|RStrip(init)|..] + [s[|s| - 1]];
    }
  }

  /** `s.lstrip()`: what is left after dropping leading whitespace. */
  function LStrip(s: string): (r: string)
    ensures |r| <= |s| && r == s[|s| - |r|..]
    ensures r == [] || !IsSpace(r[0])
  {
    if |s| > 0 && IsSpace(s[0]) then LStrip(s[1..]) else s
  }

  /** What `lstrip` drops is whitespace. */
  lemma {:induction false} LStripDropsSpaces(s: string)
    ensures AllSpace(s[..|s| - |LStrip(s)|])
  {
    if |s| > 0 && IsSpace(s[0]) {
      var tail := s[1..];
      LStripDropsSpaces(tail);
      var n := |tail| - |LStrip(tail)|;
      assert |s| - |LStrip(s)| == n + 1;
      var dropped := s[..n + 1];
      assert dropped == [s[0]] + tail[..n];
      forall k | 0 <= k < |dropped| ensures IsSpace(dropped[k]) {
        if k > 0 {
          assert dropped[k] == tail[..n][k - 1];
        }
      }
    }
  }

  /** `s.strip()`. */
  function Strip(s: string): string {
    LStrip(RStrip(s))
  }

  /** `p` occurs in `s` at index `i`. */
  predicate OccursAt(s: string, i: nat, p: string) {
    i + |p| <= |s| && s[i..i + |p|] == p
  }

  /** Python's `p in s` for strings. */
  predicate Contains(s: string, p: string) {
    exists i :: 0 <= i <= |s| && OccursAt(s, i, p)
  }

  /** Python's `s.count(p)` from index `i` on: leftmost, non-overlapping occurrences. */
  function CountFrom(s: string, p: string, i: nat): nat
    requires |p| > 0
    decreases |s| - i
  {
    if i + |p| > |s| then 0
    else if OccursAt(s, i, p) then 1 + CountFrom(s, p, i + |p|)
    else CountFrom(s, p, i + 1)
  }

  /** Python's `s.count(p)` for a non-empty `p`. */
  function Count(s: string, p: string): nat
    requires |p| > 0
  {
    CountFrom(s, p, 0)
  }

  lemma {:induction false} CountFromPositive(s: string, p: string, i: nat)
    requires |p| > 0
    ensures CountFrom(s, p, i) > 0 <==> exists k :: i <= k <= |s| && OccursAt(s, k, p)
    decreases |s| - i
  {
    if i + |p| > |s| {
    } else if OccursAt(s, i, p) {
    } else {
      CountFromPositive(s, p, i + 1);
      if exists k :: i <= k <= |s| && OccursAt(s, k, p) {
        var k :| i <= k <= |s| && OccursAt(s, k, p);
        assert k != i;
      }
    }
  }

  /** `s.count(p) > 0` exactly when `p in s`. */
  lemma CountPositiveIffContains(s: string, p: string)
    requires |p| > 0
    ensures Count(s, p) > 0 <==> Contains(s, p)
  {
    CountFromPositive(s, p, 0);
  }

  /** The scan skips positions where `p` does not occur. */
  lemma {:induction false} CountFromSkips(s: string, p: string, k: nat, n: nat)
    requires |p| > 0 && k <= n
    requires forall m :: k <= m < n ==> !OccursAt(s, m, p)
    ensures CountFrom(s, p, k) == CountFrom(s, p, n)
    decreases n - k
  {
    if k < n {
      CountFromSkips(s, p, k + 1, n);
      if k + |p| > |s| {
        assert n + |p| > |s|;
      }
    }
  }

  /** Counting in `a + b` from inside `b` is counting in `b`. */
  lemma {:induction false} CountFromShift(a: string, b: string, p: string, j: nat)
    requires |p| > 0 && j <= |b|
    ensures CountFrom(a + b, p, |a| + j) == CountFrom(b, p, j)
    decreases |b| - j
  {
    var s := a + b;
    if j + |p| <= |b| {
      assert s[|a| + j..|a| + j + |p|] == b[j..j + |p|];
      if j + |p| <= |b| && OccursAt(b, j, p) {
        CountFromShift(a, b, p, j + |p|);
      } else {
        CountFromShift(a, b, p, j + 1);
      }
    }
  }

  /** A prefix in which `p` starts nowhere does not change the count. */
  lemma CountAfterPrefix(a: string, b: string, p: string)
    requires |p| > 0 && forall k :: 0 <= k < |a| ==> !OccursAt(a + b, k, p)
    ensures Count(a + b, p) == Count(b, p)
  {
    CountFromSkips(a + b, p, 0, |a|);
    CountFromShift(a, b, p, 0);
  }

  /** An occurrence of `p` inside a slice is an occurrence in the whole string. */
  lemma ContainsSlice(s: string, a: nat, b: nat, p: string)
    requires a <= b <= |s|
    requires Contains(s[a..b], p)
    ensures Contains(s, p)
  {
    var k :| 0 <= k <= b - a && OccursAt(s[a..b], k, p);
    assert forall j :: a + k <= j < a + k + |p| ==> s[j] == s[a..b][j - a] == p[j - a - k];
    assert s[a + k..a + k + |p|] == p;
    assert OccursAt(s, a + k, p);
  }

  /** A string without the character `c` contains no pattern that has `c`. */
  lemma {:induction false} MissingCharNotContained(s: string, p: string, c: char)
    requires c !in s && c in p
    ensures !Contains(s, p)
  {
  }

  /** The number of newline characters in `s`. */
  function NewlineCount(s: string): nat {
    if |s| == 0 then 0 else (if s[0] == '\n' then 1 else 0) + NewlineCount(s[1..])
  }

  /** `s.split('\n')`. */
  function Split(s: string): (lines: seq<string>)
    ensures |lines| == NewlineCount(s) + 1
    ensures forall k :: 0 <= k < |lines| ==> '\n' !in lines[k]
  {
    if |s| == 0 then [""]
    else
      var rest := Split(s[1..]);
      if s[0] == '\n' then [""] + rest else [[s[0]] + rest[0]] + rest[1..]
  }

  /** `'\n'.join(lines)`. */
  function Join(lines: seq<string>): string {
    if |lines| == 0 then ""
    else if |lines| == 1 then lines[0]
    else lines[0] + "\n" + Join(lines[1..])
  }

  predicate NoNewlines(lines: seq<string>) {
    forall k :: 0 <= k < |lines| ==> '\n' !in lines[k]
  }

  /** Joining the pieces of a split gives back the text. */
  lemma {:induction false} JoinSplit(s: string)
    ensures Join(Split(s)) == s
  {
    if |s| > 0 {
      var rest := Split(s[1..]);
      JoinSplit(s[1..]);
      if s[0] == '\n' {
        assert Split(s) == [""] + rest;
        if |rest| == 1 {
          assert Join(Split(s)) == "" + "\n" + rest[0];
        } else {
          assert Join(Split(s)) == "" + "\n" + Join(rest);
        }
      } else {
        var first := [s[0]] + rest[0];
        assert Split(s) == [first] + rest[1..];
        if |rest| == 1 {
          assert Join(Split(s)) == first == [s[0]] + Join(rest);
        } else {
          assert Join(Split(s)) == first + "\n" + Join(rest[1..]);
          assert Join(rest) == rest[0] + "\n" + Join(rest[1..]);
        }
      }
      assert s == [s[0]] + s[1..];
    }
  }

  lemma {:induction false} SplitNoNewline(a: string)
    requires '\n' !in a
    ensures Split(a) == [a]
  {
    if |a| > 0 {
      SplitNoNewline(a[1..]);
      assert a == [a[0]] + a[1..];
    }
  }

  lemma {:induction false} SplitAfterLine(a: string, b: string)
    requires '\n' !in a
    ensures Split(a + "\n" + b) == [a] + Split(b)
  {
    if |a| == 0 {
      assert a + "\n" + b == "\n" + b;
      assert ("\n" + b)[1..] == b;
    } else {
      assert (a + "\n" + b)[1..] == a[1..] + "\n" + b;
      SplitAfterLine(a[1..], b);
      assert a == [a[0]] + a[1..];
    }
  }

  /** Splitting a join of newline-free lines gives back the lines. */
  lemma {:induction false} SplitJoin(lines: seq<string>)
    requires |lines| > 0 && NoNewlines(lines)
    ensures Split(Join(lines)) == lines
  {
    if |lines| == 1 {
      SplitNoNewline(lines[0]);
    } else {
      SplitJoin(lines[1..]);
      SplitAfterLine(lines[0], Join(lines[1..]));
      assert lines == [lines[0]] + lines[1..];
    }
  }

  /** Appending a newline ends the last line and starts an empty one. */
  lemma {:induction false} SplitAppendNewline(s: string)
    ensures Split(s + "\n") == Split(s) + [""]
  {
    if |s| > 0 {
      SplitAppendNewline(s[1..]);
      assert (s + "\n")[1..] == s[1..] + "\n";
    }
  }

  /** Concatenation is associative. Proofs cite this where they regroup a
      concatenation, which the verifier otherwise has to show element by
      element. */
  lemma AppendAssoc<T>(a: seq<T>, b: seq<T>, c: seq<T>)
    ensures a + (b + c) == a + b + c
  {
  }

  /** An occurrence of a non-empty `p` starts with the first character of `p`. */
  lemma OccursAtFirst(s: string, i: nat, p: string)
    ensures OccursAt(s, i, p) && |p| > 0 ==> s[i] == p[0]
  {
    if OccursAt(s, i, p) && |p| > 0 {
      assert s[i..i + |p|][0] == s[i];
    }
  }

  /** Two texts that lack a character are joined into one that lacks it. */
  lemma NoCharInConcat(a: string, b: string, c: char)
    requires c !in a && c !in b
    ensures c !in a + b
  {
  }

  /** A prefix of a text lacks every character the text lacks. */
  lemma PrefixLacks(c: char, a: string, b: string)
    requires a <= b && c !in b
    ensures c !in a
  {
    forall j | 0 <= j < |a| ensures a[j] != c {
      assert a[j] == b[j];
    }
  }

  /** A character of a slice is the character of the text at that place. */
  lemma SliceChar(s: string, i: nat, j: nat, k: nat)
    ensures i <= k < j <= |s| ==> s[i..j][k - i] == s[k]
  {
  }

  /** A character in the left part of a concatenation comes from that part. */
  lemma ConcatChar(a: string, b: string, k: nat)
    ensures k < |a| ==> (a + b)[k] == a[k]
  {
  }

  /** A character in the right part of a concatenation comes from that part. */
  lemma TailChar(a: string, b: string, k: nat)
    ensures |a| <= k < |a| + |b| ==> (a + b)[k] == b[k - |a|]
  {
  }

  /** A single line joins to itself. */
  lemma JoinOne(lines: seq<string>)
    ensures |lines| == 1 ==> Join(lines) == lines[0]
  {
  }

  /** A text that starts with `x` and a newline has a newline after `x`. */
  lemma NewlineInPrefix(j: string, x: string)
    requires OccursAt(j, 0, x + "\n")
    ensures |x| < |j| && j[|x|] == '\n'
  {
    assert j[|x|] == j[0..|x| + 1][|x|];
  }

  /** Joining two or more lines puts a newline after the first. */
  lemma JoinCons(lines: seq<string>)
    requires |lines| > 1
    ensures Join(lines) == lines[0] + ("\n" + Join(lines[1..]))
  {
  }

  /** An occurrence of a newline-free pattern does not cover a newline. */
  lemma NoStraddle(s: string, i: nat, p: string, k: nat)
    requires OccursAt(s, i, p) && '\n' !in p && k < |s| && s[k] == '\n'
    ensures k < i || i + |p| <= k
  {
    SliceChar(s, i, i + |p|, k);
  }

  /** Joined newline-free lines hold a newline only when there are at least
      two lines, and not inside the first one. */
  lemma NewlineAfterFirstLine(lines: seq<string>, i: nat)
    requires NoNewlines(lines) && i < |Join(lines)| && Join(lines)[i] == '\n'
    ensures |lines| > 1 && i >= |lines[0]|
  {
    JoinOne(lines);
    assert |lines| > 1;
    assert Join(lines) == lines[0] + ("\n" + Join(lines[1..]));
    ConcatChar(lines[0], "\n" + Join(lines[1..]), i);
  }

  /** An occurrence of a newline-free pattern in joined lines lies within one line. */
  lemma {:induction false} JoinContains(lines: seq<string>, p: string)
    requires |p| > 0 && '\n' !in p && Contains(Join(lines), p)
    ensures exists k :: 0 <= k < |lines| && Contains(lines[k], p)
  {
    var i :| 0 <= i <= |Join(lines)| && OccursAt(Join(lines), i, p);
    JoinOne(lines);
    if |lines| == 1 {
      assert Contains(lines[0], p);
    } else if |lines| > 1 {
      var head := lines[0];
      var rest := Join(lines[1..]);
      assert Join(lines) == head + "\n" + rest;
      NoStraddle(Join(lines), i, p, |head|);
      if i + |p| <= |head| {
        assert head[i..i + |p|] == Join(lines)[i..i + |p|];
        assert OccursAt(head, i, p);
      } else {
        var j := i - |head| - 1;
        assert rest[j..j + |p|] == Join(lines)[i..i + |p|];
        assert OccursAt(rest, j, p);
        JoinContains(lines[1..], p);
        var k :| 0 <= k < |lines[1..]| && Contains(lines[1..][k], p);
        assert lines[k + 1] == lines[1..][k];
      }
    }
  }

  /** A text that is a newline-free `head` followed by a newline, and that
      starts with the newline-free `x` and a newline, has `x` as its head. */
  lemma FirstLineIs(head: string, tail: string, x: string)
    requires '\n' !in head && '\n' !in x && |tail| > 0 && tail[0] == '\n'
    requires OccursAt(head + tail, 0, x + "\n")
    ensures head == x
  {
    var j := head + tail;
    var p := x + "\n";
    SliceChar(j, 0, |p|, |x|);
    ConcatChar(head, tail, |x|);
    assert |x| >= |head|;
    SliceChar(j, 0, |p|, |head|);
    ConcatChar(x, "\n", |head|);
    assert |head| >= |x|;
    assert j[..|x|] == p[..|x|] == x;
    assert head == j[..|head|];
  }

  /** Joined newline-free lines that start with `x` and a newline start with
      the line `x`. */
  lemma LineThenNewline(lines: seq<string>, x: string)
    requires NoNewlines(lines) && '\n' !in x
    requires OccursAt(Join(lines), 0, x + "\n")
    ensures |lines| > 1 && lines[0] == x
  {
    var j := Join(lines);
    NewlineInPrefix(j, x);
    NewlineAfterFirstLine(lines, |x|);
    JoinCons(lines);
    FirstLineIs(lines[0], "\n" + Join(lines[1..]), x);
  }

  lemma SliceTail(s: string, i: nat, j: nat)
    requires i < j <= |s|
    ensures s[i + 1..j] == s[i..j][1..]
  {
  }

  lemma DropNewline(x: string)
    ensures ("\n" + x + "\n")[1..] == x + "\n"
  {
  }

  /** A slice after `head` and a newline is the same slice of `rest`. */
  lemma SliceAfter(head: string, rest: string, j: nat, n: nat)
    requires j + n <= |rest|
    ensures (head + "\n" + rest)[|head| + 1 + j..|head| + 1 + j + n] == rest[j..j + n]
  {
    var t := head + "\n" + rest;
    forall k | j <= k < j + n ensures t[|head| + 1 + k] == rest[k] {
    }
  }

  /** A newline-delimited occurrence `\n<x>\n` in joined newline-free lines
      is one of the lines after the first. */
  /** A line that starts right at the newline after `head` lies at the
      start of `rest`. */
  lemma LineAtHeadEnd(head: string, rest: string, x: string)
    requires OccursAt(head + "\n" + rest, |head|, "\n" + x + "\n")
    ensures OccursAt(rest, 0, x + "\n")
  {
    var t, p := head + "\n" + rest, "\n" + x + "\n";
    SliceTail(t, |head|, |head| + |p|);
    DropNewline(x);
    SliceAfter(head, rest, 0, |x| + 1);
  }

  /** An occurrence past the newline after `head` is an occurrence in `rest`. */
  lemma OccursAfterHead(head: string, rest: string, i: nat, p: string)
    requires i > |head| && OccursAt(head + "\n" + rest, i, p)
    ensures OccursAt(rest, i - |head| - 1, p)
  {
    SliceAfter(head, rest, i - |head| - 1, |p|);
  }

  lemma {:induction false} JoinContainsLine(lines: seq<string>, x: string)
    requires NoNewlines(lines) && '\n' !in x && Contains(Join(lines), "\n" + x + "\n")
    ensures exists k :: 0 < k < |lines| && lines[k] == x
  {
    var p := "\n" + x + "\n";
    var i :| 0 <= i <= |Join(lines)| && OccursAt(Join(lines), i, p);
    SliceChar(Join(lines), i, i + |p|, i);
    assert Join(lines)[i] == p[0] == '\n';
    NewlineAfterFirstLine(lines, i);
    var head := lines[0];
    var rest := Join(lines[1..]);
    assert Join(lines) == head + "\n" + rest;
    if i == |head| {
      LineAtHeadEnd(head, rest, x);
      assert NoNewlines(lines[1..]);
      LineThenNewline(lines[1..], x);
      assert lines[1] == lines[1..][0];
    } else {
      OccursAfterHead(head, rest, i, p);
      assert NoNewlines(lines[1..]);
      JoinContainsLine(lines[1..], x);
      var k :| 0 < k < |lines[1..]| && lines[1..][k] == x;
      assert lines[k + 1] == lines[1..][k];
    }
  }

  /** The decimal digits of `n`, as an f-string renders it. */
  function NatToString(n: nat): (r: string)
    ensures |r| > 0
    ensures forall k :: 0 <= k < |r| ==> IsDigit(r[k])
  {
    if n < 10 then [(n + '0' as int) as char]
    else NatToString(n / 10) + [(n % 10 + '0' as int) as char]
  }
}
