/** Facts about the finite collections the model builds: the set of elements
    of a sequence and the size of a subset. */
module Collections {
  /** The distinct elements of a sequence. */
  function Elements<T>(s: seq<T>): set<T> {
    set x | x in s
  }

  /** A subset is no larger than its superset. */
  lemma SubsetCardinality<T>(a: set<T>, b: set<T>)
    requires a <= b
    ensures |a| <= |b|
  {
    assert b == a + (b - a);
  }

  /** How many distinct elements a sequence has, read off its first element. */
  lemma ElementsCount<T>(s: seq<T>)
    ensures |s| == 0 ==> Elements(s) == {}
    ensures |s| > 0 && (forall j :: 0 <= j < |s| ==> s[j] == s[0]) ==> Elements(s) == {s[0]}
    ensures |s| > 0 && (exists j :: 0 <= j < |s| && s[j] != s[0]) ==> |Elements(s)| > 1
  {
    if |s| > 0 && exists j :: 0 <= j < |s| && s[j] != s[0] {
      var j :| 0 <= j < |s| && s[j] != s[0];
      assert {s[0], s[j]} <= Elements(s);
      SubsetCardinality({s[0], s[j]}, Elements(s));
    }
  }

  /** The elements of a non-empty sequence: its head and those of its tail. */
  lemma ElementsCons<T>(s: seq<T>)
    requires |s| > 0
    ensures Elements(s) == {s[0]} + Elements(s[1..])
  {
  }
}
