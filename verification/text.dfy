/** String operations the generator borrows from Rust's `str`: `replace`
    (non-overlapping, leftmost-first substitution) and the search for the first
    occurrence of a character that `splitn(2, c)` performs. */
module Text {
  import opened Results

  /** `pat` occurs in `s` starting at position `i`. */
  predicate OccursAt(s: string, pat: string, i: nat) {
    i + |pat| <= |s| && s[i..i + |pat|] == pat
  }

  /** `pat` occurs somewhere in `s` (the empty pattern occurs everywhere). */
  predicate Contains(s: string, pat: string) {
    exists i :: 0 <= i <= |s| && OccursAt(s, pat, i)
  }

  /** Rust's `s.replace(pat, rep)`: scanning left to right, every occurrence of
      `pat` that does not overlap an earlier replaced one becomes `rep`. An
      empty pattern matches before every character and at the end. */
  function Replace(s: string, pat: string, rep: string): string
    decreases |s|
  {
    if |pat| == 0 then
      if |s| == 0 then rep else rep + [s[0]] + Replace(s[1..], pat, rep)
    else if |s| < |pat| then s
    else if s[..|pat|] == pat then rep + Replace(s[|pat|..], pat, rep)
    else [s[0]] + Replace(s[1..], pat, rep)
  }

  /** Reference definition of a one-character substitution, position by position. */
  function MapChar(s: string, c: char, d: char): (r: string)
    ensures |r| == |s|
    ensures forall i :: 0 <= i < |s| ==> r[i] == (if s[i] == c then d else s[i])
  {
    seq(|s|, i requires 0 <= i < |s| => if s[i] == c then d else s[i])
  }

  lemma AbsentFromTail(s: string, pat: string)
    requires |s| > 0 && !Contains(s, pat)
    ensures !Contains(s[1..], pat)
  {
    forall i | 0 <= i <= |s[1..]|
      ensures !OccursAt(s[1..], pat, i)
    {
      assert !OccursAt(s, pat, i + 1);
      if i + |pat| <= |s[1..]| {
        assert s[1..][i..i + |pat|] == s[i + 1..i + 1 + |pat|];
      }
    }
  }

  /** A string without any occurrence of the pattern is left unchanged. */
  lemma {:induction false} ReplaceAbsent(s: string, pat: string, rep: string)
    requires !Contains(s, pat)
    ensures Replace(s, pat, rep) == s
    decreases |s|
  {
    if |pat| == 0 {
      assert OccursAt(s, pat, 0);
    } else if |s| < |pat| {
    } else {
      assert !OccursAt(s, pat, 0);
      assert s[..|pat|] != pat;
      AbsentFromTail(s, pat);
      ReplaceAbsent(s[1..], pat, rep);
      assert s == [s[0]] + s[1..];
    }
  }

  /** Replacing one character by another is a position-wise substitution. */
  lemma {:induction false} ReplaceChar(s: string, c: char, d: char)
    ensures Replace(s, [c], [d]) == MapChar(s, c, d)
    decreases |s|
  {
    if |s| > 0 {
      ReplaceChar(s[1..], c, d);
      var r := Replace(s, [c], [d]);
      if s[0] == c {
        assert s[..1] == [c];
        assert r == [d] + Replace(s[1..], [c], [d]);
      } else {
        assert s[..1] != [c];
        assert r == [s[0]] + Replace(s[1..], [c], [d]);
      }
      assert r == MapChar(s, c, d);
    }
  }

  /** No proper prefix of `pat` is also a suffix of it, so two occurrences
      of `pat` can never overlap. */
  predicate Unbordered(pat: string) {
    forall d :: 0 < d < |pat| ==> pat[d..] != pat[..|pat| - d]
  }

  /** A pattern whose first character does not recur is unbordered. */
  lemma UniqueHeadUnbordered(pat: string)
    requires |pat| > 0 && pat[0] !in pat[1..]
    ensures Unbordered(pat)
  {
  }

  /** No occurrence of `pat` in `s` starts before position `n`. */
  predicate NoOccurrenceBefore(s: string, pat: string, n: nat) {
    forall j :: 0 <= j < n ==> !OccursAt(s, pat, j)
  }

  /** An occurrence in `a + pat + b` that starts inside `a` and reaches past
      it makes the overlap a border of `pat`. */
  lemma OverlapIsBorder(a: string, pat: string, b: string, j: nat)
    requires j < |a| < j + |pat| && OccursAt(a + pat + b, pat, j)
    ensures pat[|a| - j..] == pat[..|pat| - (|a| - j)]
  {
  }

  /** With an unbordered pattern absent from `a`, no occurrence in
      `a + pat + b` starts inside `a`. */
  lemma NoEarlierOccurrence(a: string, pat: string, b: string)
    requires Unbordered(pat) && !Contains(a, pat)
    ensures NoOccurrenceBefore(a + pat + b, pat, |a|)
  {
    var s := a + pat + b;
    forall j | 0 <= j < |a|
      ensures !OccursAt(s, pat, j)
    {
      if OccursAt(s, pat, j) {
        if j + |pat| <= |a| {
          assert s[j..j + |pat|] == a[j..j + |pat|];
          assert OccursAt(a, pat, j);
        } else {
          OverlapIsBorder(a, pat, b, j);
        }
      }
    }
  }

  /** Dropping the first character shifts every position down by one. */
  lemma NoOccurrenceShift(s: string, pat: string, n: nat)
    requires 0 < n <= |s| && NoOccurrenceBefore(s, pat, n)
    ensures NoOccurrenceBefore(s[1..], pat, n - 1)
  {
    forall j | 0 <= j < n - 1
      ensures !OccursAt(s[1..], pat, j)
    {
      assert !OccursAt(s, pat, j + 1);
      if j + |pat| <= |s[1..]| {
        assert s[j + 1..j + 1 + |pat|] == s[1..][j..j + |pat|];
      }
    }
  }

  /** A text that does not start with the pattern keeps its first character. */
  lemma ReplaceSkip(s: string, pat: string, rep: string)
    requires 0 < |pat| <= |s| && !OccursAt(s, pat, 0)
    ensures Replace(s, pat, rep) == [s[0]] + Replace(s[1..], pat, rep)
  {
  }

  /** When no occurrence starts inside `a`, the first one is the one right
      after it: it is replaced and the scan resumes behind it. */
  lemma {:induction false} ReplaceFirst(a: string, pat: string, b: string, rep: string)
    requires |pat| > 0 && NoOccurrenceBefore(a + pat + b, pat, |a|)
    ensures Replace(a + pat + b, pat, rep) == a + rep + Replace(b, pat, rep)
    decreases |a|
  {
    var s := a + pat + b;
    if |a| == 0 {
      assert s == pat + b && s[..|pat|] == pat && s[|pat|..] == b;
    } else {
      ReplaceSkip(s, pat, rep);
      assert s[1..] == a[1..] + pat + b;
      NoOccurrenceShift(s, pat, |a|);
      ReplaceFirst(a[1..], pat, b, rep);
      assert a == [a[0]] + a[1..];
    }
  }

  /** Rust's `replace` with an unbordered pattern: the first occurrence,
      preceded by text free of the pattern, becomes `rep`, and the rest of
      the text is scanned on. */
  lemma ReplaceLeftmost(a: string, pat: string, b: string, rep: string)
    requires |pat| > 0 && Unbordered(pat) && !Contains(a, pat)
    ensures Replace(a + pat + b, pat, rep) == a + rep + Replace(b, pat, rep)
  {
    NoEarlierOccurrence(a, pat, b);
    ReplaceFirst(a, pat, b, rep);
  }

  /** The position of the first occurrence of `c` in `s`, if any. */
  function IndexOf(s: string, c: char): (r: Option<nat>)
    ensures r.None? <==> c !in s
    ensures r.Some? ==> r.value < |s| && s[r.value] == c && c !in s[..r.value]
  {
    if |s| == 0 then None
    else if s[0] == c then Some(0)
    else
      match IndexOf(s[1..], c)
      case None => None
      case Some(i) =>
        assert s[..i + 1] == [s[0]] + s[1..][..i];
        Some(i + 1)
  }

  /** Joins the parts with the separator between consecutive parts. */
  function Join(parts: seq<string>, sep: string): string
  {
    if |parts| == 0 then ""
    else if |parts| == 1 then parts[0]
    else parts[0] + sep + Join(parts[1..], sep)
  }
}
