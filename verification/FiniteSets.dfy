/** Sizes of finite sets, and of the sets of elements of sequences. */
module FiniteSets {
  import opened OrderedDict

  lemma SubsetSize<T>(a: set<T>, b: set<T>)
    requires a <= b
    ensures |a| <= |b| && (|a| == |b| ==> a == b)
  {
    assert b == a + (b - a) && |b| == |a| + |b - a|;
  }

  function Elements(s: seq<string>): set<string> { set x | x in s }

  lemma {:induction false} ElementsBound(s: seq<string>)
    ensures |Elements(s)| <= |s|
    ensures |Elements(s)| == |s| <==> NoDuplicates(s)
  {
    if s == [] {
      assert Elements(s) == {};
    } else {
      var init, last := s[..|s| - 1], s[|s| - 1];
      ElementsBound(init);
      assert s == init + [last];
      DistinctSnoc(init, last);
      assert Elements(s) == Elements(init) + {last};
    }
  }

  /** Distinct elements of a sequence are no more than it has. */
  lemma DistinctBound(s: seq<string>, all: seq<string>)
    requires NoDuplicates(s) && forall i :: 0 <= i < |s| ==> s[i] in all
    ensures |s| <= |all|
  {
    ElementsBound(s);
    ElementsBound(all);
    SubsetSize(Elements(s), Elements(all));
  }
}
