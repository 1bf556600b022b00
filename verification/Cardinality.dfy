/** Counting arguments over finite sets of sequence numbers. */
module Cardinality {

  predicate InRange(v: int, n: nat) {
    0 <= v < n
  }

  /** The numbers 0, 1, ..., n - 1. */
  function Below(n: nat): set<int> {
    set v | 0 <= v < n && InRange(v, n)
  }

  lemma {:induction false} BelowSize(n: nat)
    ensures |Below(n)| == n
  {
    if n > 0 {
      BelowSize(n - 1);
      assert Below(n) == Below(n - 1) + {n - 1};
    }
  }

  function SetOf(s: seq<int>): set<int> {
    set v | v in s
  }

  ghost predicate NoDup(s: seq<int>) {
    forall i, j :: 0 <= i < j < |s| ==> s[i] != s[j]
  }

  lemma SubsetSize(a: set<int>, b: set<int>)
    requires a <= b
    ensures |b - a| == |b| - |a| && |a| <= |b|
  {
    assert b == a + (b - a);
  }

  /** A sequence has as many elements as values exactly when nothing repeats. */
  lemma {:induction false} SetOfSize(s: seq<int>)
    ensures |SetOf(s)| <= |s|
    ensures |SetOf(s)| == |s| <==> NoDup(s)
  {
    if s != [] {
      var init, last := s[..|s| - 1], s[|s| - 1];
      SetOfSize(init);
      assert s == init + [last];
      assert SetOf(s) == SetOf(init) + {last};
      if last in init {
        assert SetOf(s) == SetOf(init);
        var i :| 0 <= i < |init| && init[i] == last;
        assert s[i] == s[|s| - 1];
      } else {
        assert NoDup(init) ==> NoDup(s);
        assert NoDup(s) ==> NoDup(init);
      }
    }
  }

  function Above(s: seq<int>, n: int): set<int> {
    set v | v in s && v > n
  }

  /** Inclusion and exclusion around one element of `seen`, with everything else in
      `seen` either in `lower` or in `above`. */
  lemma SplitSets(seen: set<int>, lower: set<int>, n: int, above: set<int>)
    requires n in seen && n !in lower && n !in above && lower !! above
    requires above <= seen <= lower + {n} + above
    ensures |lower - seen| == |lower| + 1 + |above| - |seen|
  {
    var missing := lower - seen;
    var smaller := lower - missing;
    SubsetSize(missing, lower);
    assert seen - above == smaller + {n};
    SubsetSize(above, seen);
  }

  /** A received number n splits the others into smaller and larger ones; the smaller
      ones are the numbers below n without those that are missing. */
  lemma SplitAt(s: seq<int>, n: nat)
    requires n in s && forall v :: v in s ==> 0 <= v
    ensures |Below(n) - SetOf(s)| == n + 1 + |Above(s, n)| - |SetOf(s)|
  {
    BelowSize(n);
    SplitSets(SetOf(s), Below(n), n, Above(s, n));
  }
}
