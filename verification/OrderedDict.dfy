/** Python dictionaries, which remember the order in which keys were first set. */
module OrderedDict {

  type Items<!K, !V> = seq<(K, V)>

  function Keys<K, V>(d: Items<K, V>): (ks: seq<K>)
    ensures |ks| == |d| && forall i :: 0 <= i < |d| ==> ks[i] == d[i].0
  {
    seq(|d|, i requires 0 <= i < |d| => d[i].0)
  }

  predicate NoDuplicates<T(==)>(s: seq<T>) {
    forall i, j :: 0 <= i < j < |s| ==> s[i] != s[j]
  }

  /** The position of `k`, or the number of items when it is absent. */
  function IndexOf<K(==), V>(d: Items<K, V>, k: K): (i: nat)
    ensures i <= |d| && (i < |d| ==> d[i].0 == k)
    ensures forall j :: 0 <= j < i ==> d[j].0 != k
    ensures i < |d| <==> k in Keys(d)
  {
    if d == [] then 0
    else if d[0].0 == k then assert Keys(d)[0] == k; 0
    else 1 + IndexOf(d[1..], k)
  }

  lemma ConcatAssociates<T>(a: seq<T>, b: seq<T>, c: seq<T>)
    ensures a + (b + c) == a + b + c
  {}

  lemma KeysSnoc<K, V>(d: Items<K, V>)
    requires d != []
    ensures Keys(d) == Keys(d[..|d| - 1]) + [d[|d| - 1].0]
  {
    var r := Keys(d[..|d| - 1]) + [d[|d| - 1].0];
    assert forall i :: 0 <= i < |r| ==> Keys(d)[i] == r[i];
  }

  lemma KeysCons<K, V>(x: (K, V), d: Items<K, V>)
    ensures Keys([x] + d) == [x.0] + Keys(d)
  {}

  lemma DistinctCons<T>(x: T, s: seq<T>)
    ensures NoDuplicates([x] + s) <==> NoDuplicates(s) && x !in s
  {
    var r := [x] + s;
    if NoDuplicates(r) {
      forall i | 0 <= i < |s| ensures s[i] != x { assert r[0] != r[i + 1]; }
      forall i, j | 0 <= i < j < |s| ensures s[i] != s[j] { assert r[i + 1] != r[j + 1]; }
    }
  }

  lemma IndexAt<K, V>(d: Items<K, V>, n: nat)
    requires NoDuplicates(Keys(d)) && n < |d|
    ensures IndexOf(d, d[n].0) == n
  {
    assert Keys(d)[n] == d[n].0;
  }

  /** `d[k] = v`: a known key keeps its place, a new one goes last. */
  function Put<K(==), V>(d: Items<K, V>, k: K, v: V): Items<K, V> {
    var i := IndexOf(d, k);
    if i < |d| then d[i := (k, v)] else d + [(k, v)]
  }

  lemma PutKeys<K, V>(d: Items<K, V>, k: K, v: V)
    ensures Keys(Put(d, k, v)) == if k in Keys(d) then Keys(d) else Keys(d) + [k]
    ensures NoDuplicates(Keys(d)) ==> NoDuplicates(Keys(Put(d, k, v)))
  {
    var e := Put(d, k, v);
    assert Keys(e) == if k in Keys(d) then Keys(d) else Keys(d) + [k];
  }

  lemma PutFresh<K, V>(d: Items<K, V>, k: K, v: V)
    requires k !in Keys(d)
    ensures Put(d, k, v) == d + [(k, v)]
  {}

  /** `dict(pairs)`: every pair is put in turn. */
  function FromPairs<K(==), V>(pairs: seq<(K, V)>): Items<K, V> {
    if pairs == [] then []
    else Put(FromPairs(pairs[..|pairs| - 1]), pairs[|pairs| - 1].0, pairs[|pairs| - 1].1)
  }

  /** The last position at which `k` occurs as a key of `pairs`. */
  ghost predicate LastAt<K, V>(pairs: seq<(K, V)>, k: K, i: nat) {
    i < |pairs| && pairs[i].0 == k && forall j :: i < j < |pairs| ==> pairs[j].0 != k
  }

  /** `tuple(dict.fromkeys(s))`: the first occurrences, in order. */
  function FirstOccurrences<T(==)>(s: seq<T>): seq<T> {
    if s == [] then []
    else
      var x, r := s[|s| - 1], FirstOccurrences(s[..|s| - 1]);
      if x in r then r else r + [x]
  }

  lemma FirstOccurrencesSnoc<T>(s: seq<T>, x: T)
    ensures FirstOccurrences(s + [x]) == if x in FirstOccurrences(s) then FirstOccurrences(s) else FirstOccurrences(s) + [x]
  {
    assert (s + [x])[..|s|] == s;
  }

  lemma FirstOccurrencesLast<T>(s: seq<T>)
    requires s != []
    ensures var r := FirstOccurrences(s[..|s| - 1]);
            FirstOccurrences(s) == if s[|s| - 1] in r then r else r + [s[|s| - 1]]
  {}

  lemma {:induction false} FirstOccurrencesMembers<T>(s: seq<T>, x: T)
    ensures x in FirstOccurrences(s) <==> x in s
  {
    if s != [] {
      FirstOccurrencesMembers(s[..|s| - 1], x);
      assert s == s[..|s| - 1] + [s[|s| - 1]];
    }
  }

  lemma {:induction false} FirstOccurrencesDistinct<T>(s: seq<T>)
    ensures NoDuplicates(FirstOccurrences(s))
  {
    if s != [] {
      FirstOccurrencesDistinct(s[..|s| - 1]);
    }
  }

  lemma DistinctSnoc<T>(s: seq<T>, x: T)
    ensures NoDuplicates(s + [x]) <==> NoDuplicates(s) && x !in s
  {
    var r := s + [x];
    if NoDuplicates(r) {
      forall i | 0 <= i < |s| ensures s[i] != x { assert r[i] != r[|s|]; }
      forall i, j | 0 <= i < j < |s| ensures s[i] != s[j] { assert r[i] != r[j]; }
    }
  }

  lemma {:induction false} FirstOccurrencesOfDistinct<T>(s: seq<T>)
    requires NoDuplicates(s)
    ensures FirstOccurrences(s) == s
  {
    hide NoDuplicates;
    if s != [] {
      var init, last := s[..|s| - 1], s[|s| - 1];
      assert s == init + [last];
      DistinctSnoc(init, last);
      FirstOccurrencesOfDistinct(init);
    }
  }

  lemma {:induction false} FromPairsKeys<K, V>(pairs: seq<(K, V)>)
    ensures Keys(FromPairs(pairs)) == FirstOccurrences(Keys(pairs))
    ensures NoDuplicates(Keys(FromPairs(pairs)))
  {
    FirstOccurrencesDistinct(Keys(pairs));
    if pairs != [] {
      hide FirstOccurrences;
      hide NoDuplicates;
      hide Put;
      var init, last := pairs[..|pairs| - 1], pairs[|pairs| - 1];
      FromPairsKeys(init);
      PutKeys(FromPairs(init), last.0, last.1);
      KeysSnoc(pairs);
      FirstOccurrencesSnoc(Keys(init), last.0);
    }
  }

  /** Putting changes only the item of its key. */
  lemma PutOther<K, V>(d: Items<K, V>, k: K, v: V, n: nat)
    requires NoDuplicates(Keys(d)) && n < |Put(d, k, v)|
    ensures if Put(d, k, v)[n].0 == k then Put(d, k, v)[n].1 == v
            else n < |d| && Put(d, k, v)[n] == d[n]
  {
    var i := IndexOf(d, k);
    if n < |d| && d[n].0 == k {
      assert Keys(d)[n] == Keys(d)[i];
    }
  }

  lemma FromPairsStep<K, V>(pairs: seq<(K, V)>)
    requires pairs != []
    ensures var last := |pairs| - 1;
            && NoDuplicates(Keys(FromPairs(pairs[..last])))
            && FromPairs(pairs) == Put(FromPairs(pairs[..last]), pairs[last].0, pairs[last].1)
  {
    FromPairsKeys(pairs[..|pairs| - 1]);
  }

  lemma LastAtExtends<K, V>(pairs: seq<(K, V)>, k: K, i: nat)
    requires pairs != [] && pairs[|pairs| - 1].0 != k && LastAt(pairs[..|pairs| - 1], k, i)
    ensures LastAt(pairs, k, i)
  {
    assert forall j :: i < j < |pairs| - 1 ==> pairs[j] == pairs[..|pairs| - 1][j];
  }

  /** Every item of a dictionary built from pairs holds the last value given for its key. */
  lemma {:induction false} FromPairsValues<K, V>(pairs: seq<(K, V)>, n: nat) returns (i: nat)
    requires n < |FromPairs(pairs)|
    ensures LastAt(pairs, FromPairs(pairs)[n].0, i) && pairs[i] == FromPairs(pairs)[n]
    decreases |pairs|
  {
    hide Put;
    hide NoDuplicates;
    if pairs == [] { return; }
    var last := |pairs| - 1;
    FromPairsStep(pairs);
    PutOther(FromPairs(pairs[..last]), pairs[last].0, pairs[last].1, n);
    if FromPairs(pairs)[n].0 == pairs[last].0 {
      i := last;
    } else {
      i := FromPairsValues(pairs[..last], n);
      LastAtExtends(pairs, FromPairs(pairs)[n].0, i);
    }
  }
}
