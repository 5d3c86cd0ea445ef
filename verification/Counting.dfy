/** `collections.Counter`, kept as a dictionary in the order of first occurrence. */
module Counting {
  import opened OrderedDict
  import opened Sorting

  function Get(d: Items<string, nat>, k: string): nat {
    var i := IndexOf(d, k);
    if i < |d| then d[i].1 else 0
  }

  /** `counter[k] += 1`. */
  function Bump(d: Items<string, nat>, k: string): Items<string, nat> {
    Put<string, nat>(d, k, Get(d, k) + 1)
  }

  /** `Counter(names)`. */
  function CounterOf(names: seq<string>): Items<string, nat> {
    if names == [] then []
    else Bump(CounterOf(names[..|names| - 1]), names[|names| - 1])
  }

  function Sum(d: Items<string, nat>): nat {
    if d == [] then 0 else d[0].1 + Sum(d[1..])
  }

  predicate NameLe(a: (string, nat), b: (string, nat)) { StringLe(a.0, b.0) }

  /** `sorted(counter.items())`: the names of a counter are distinct, so they alone decide the order. */
  function SortedItems(d: Items<string, nat>): Items<string, nat> { Sort(NameLe, d) }

  lemma {:induction false} SumUpdate(d: Items<string, nat>, i: nat, v: nat)
    requires i < |d|
    ensures Sum(d[i := (d[i].0, v)]) + d[i].1 == Sum(d) + v
  {
    if i == 0 {
      assert d[0 := (d[0].0, v)][1..] == d[1..];
    } else {
      assert d[i := (d[i].0, v)][1..] == d[1..][i - 1 := (d[i].0, v)];
      SumUpdate(d[1..], i - 1, v);
    }
  }

  lemma {:induction false} SumSnoc(d: Items<string, nat>, k: string, v: nat)
    ensures Sum(d + [(k, v)]) == Sum(d) + v
  {
    if d == [] {
      assert [] + [(k, v)] == [(k, v)];
    } else {
      assert (d + [(k, v)])[1..] == d[1..] + [(k, v)];
      SumSnoc(d[1..], k, v);
    }
  }

  lemma SumPut(d: Items<string, nat>, k: string, v: nat)
    ensures Sum(Put(d, k, v)) + Get(d, k) == Sum(d) + v
  {
    var i := IndexOf(d, k);
    if i < |d| { SumUpdate(d, i, v); } else { SumSnoc(d, k, v); }
  }

  lemma BumpAddsOne(d: Items<string, nat>, k: string)
    ensures Sum(Bump(d, k)) == Sum(d) + 1
    ensures forall x :: x in Keys(Bump(d, k)) <==> x in Keys(d) || x == k
    ensures NoDuplicates(Keys(d)) ==> NoDuplicates(Keys(Bump(d, k)))
  {
    hide Put;
    SumPut(d, k, Get(d, k) + 1);
    PutKeys<string, nat>(d, k, Get(d, k) + 1);
  }

  /** A counter counts every name once: its keys are the names, its values add up to their number. */
  lemma {:induction false} CounterCountsAll(names: seq<string>)
    ensures Sum(CounterOf(names)) == |names|
    ensures forall x :: x in Keys(CounterOf(names)) <==> x in names
    ensures NoDuplicates(Keys(CounterOf(names)))
  {
    hide Bump;
    if names != [] {
      var init, last := names[..|names| - 1], names[|names| - 1];
      CounterCountsAll(init);
      BumpAddsOne(CounterOf(init), last);
      assert names == init + [last];
    }
  }

  lemma BumpKeys(d: Items<string, nat>, k: string)
    ensures Keys(Bump(d, k)) == if k in Keys(d) then Keys(d) else Keys(d) + [k]
  {
    PutKeys<string, nat>(d, k, Get(d, k) + 1);
  }

  lemma CounterSnoc(names: seq<string>)
    requires names != []
    ensures CounterOf(names) == Bump(CounterOf(names[..|names| - 1]), names[|names| - 1])
  {}

  /** A counter lists the names in the order of their first occurrence. */
  lemma {:induction false} CounterKeys(names: seq<string>)
    ensures Keys(CounterOf(names)) == FirstOccurrences(names)
  {
    if names != [] {
      hide Bump;
      hide CounterOf;
      hide FirstOccurrences;
      var init, last := names[..|names| - 1], names[|names| - 1];
      CounterKeys(init);
      CounterSnoc(names);
      BumpKeys(CounterOf(init), last);
      FirstOccurrencesLast(names);
    }
  }

  lemma GetItem(d: Items<string, nat>, item: (string, nat))
    requires NoDuplicates(Keys(d)) && item in d
    ensures Get(d, item.0) == item.1
  {
    var n :| 0 <= n < |d| && d[n] == item;
    assert Keys(d)[n] == item.0 == Keys(d)[IndexOf(d, item.0)];
  }

  lemma GetPut(d: Items<string, nat>, k: string, v: nat, x: string)
    requires NoDuplicates(Keys(d))
    ensures Get(Put(d, k, v), x) == if x == k then v else Get(d, x)
  {
    hide Put;
    hide NoDuplicates;
    var e := Put(d, k, v);
    var m := IndexOf(e, x);
    PutKeys<string, nat>(d, k, v);
    if m < |e| {
      PutOther<string, nat>(d, k, v, m);
      if x != k { GetItem(d, d[m]); }
    }
  }

  lemma GetNothing(x: string)
    ensures Get(CounterOf([]), x) == 0
  {}

  lemma GetBump(d: Items<string, nat>, k: string, x: string)
    requires NoDuplicates(Keys(d))
    ensures Get(Bump(d, k), x) == Get(d, x) + if x == k then 1 else 0
  {
    GetPut(d, k, Get(d, k) + 1, x);
  }

  /** A counter holds for each name how often it occurs. */
  lemma {:induction false} CounterCountsEach(names: seq<string>, x: string)
    ensures Get(CounterOf(names), x) == multiset(names)[x]
  {
    hide Bump;
    hide Get;
    hide NoDuplicates;
    GetNothing(x);
    if names != [] {
      var init, last := names[..|names| - 1], names[|names| - 1];
      CounterCountsEach(init, x);
      CounterCountsAll(init);
      GetBump(CounterOf(init), last, x);
      assert names == init + [last];
    }
  }

  lemma {:induction false} SumInsert(x: (string, nat), d: Items<string, nat>)
    ensures Sum(Insert(NameLe, x, d)) == x.1 + Sum(d)
  {
    if d != [] && !NameLe(x, d[0]) {
      SumInsert(x, d[1..]);
      assert Insert(NameLe, x, d)[1..] == Insert(NameLe, x, d[1..]);
    } else {
      assert ([x] + d)[1..] == d;
    }
  }

  lemma {:induction false} SumSorted(d: Items<string, nat>)
    ensures Sum(SortedItems(d)) == Sum(d)
  {
    if d != [] {
      SumSorted(d[1..]);
      SumInsert(d[0], Sort(NameLe, d[1..]));
    }
  }

  lemma NameOrder()
    ensures IsPreorder(NameLe)
  {
    forall x, y ensures NameLe(x, y) || NameLe(y, x) { StringLeTotal(x.0, y.0); }
    forall x, y, z | NameLe(x, y) && NameLe(y, z) ensures NameLe(x, z) { StringLeTransitive(x.0, y.0, z.0); }
  }

  lemma ConsKeys(x: (string, nat), d: Items<string, nat>)
    ensures Keys([x] + d) == [x.0] + Keys(d)
    ensures NoDuplicates(Keys([x] + d)) <==> NoDuplicates(Keys(d)) && x.0 !in Keys(d)
  {
    hide NoDuplicates;
    KeysCons<string, nat>(x, d);
    DistinctCons(x.0, Keys(d));
  }

  lemma {:induction false} InsertDistinct(x: (string, nat), d: Items<string, nat>)
    requires NoDuplicates(Keys(d)) && x.0 !in Keys(d)
    ensures NoDuplicates(Keys(Insert(NameLe, x, d)))
    ensures forall k :: k in Keys(Insert(NameLe, x, d)) <==> k == x.0 || k in Keys(d)
  {
    hide NoDuplicates;
    hide NameLe;
    if d == [] || NameLe(x, d[0]) {
      ConsKeys(x, d);
      assert Insert(NameLe, x, d) == [x] + d;
    } else {
      assert d == [d[0]] + d[1..];
      ConsKeys(d[0], d[1..]);
      InsertDistinct(x, d[1..]);
      ConsKeys(d[0], Insert(NameLe, x, d[1..]));
    }
  }

  lemma {:induction false} SortDistinct(d: Items<string, nat>)
    requires NoDuplicates(Keys(d))
    ensures NoDuplicates(Keys(SortedItems(d)))
    ensures forall k :: k in Keys(SortedItems(d)) <==> k in Keys(d)
  {
    hide NoDuplicates;
    if d != [] {
      assert d == [d[0]] + d[1..];
      ConsKeys(d[0], d[1..]);
      SortDistinct(d[1..]);
      InsertDistinct(d[0], SortedItems(d[1..]));
    }
  }

  /** The sorted items of a counter: names in order, each once, with its number of occurrences. */
  lemma SortedCounter(names: seq<string>)
    ensures var r := SortedItems(CounterOf(names));
            && Ordered(NameLe, r) && NoDuplicates(Keys(r)) && Sum(r) == |names|
            && (forall i :: 0 <= i < |r| ==> r[i].0 in names && r[i].1 == multiset(names)[r[i].0])
  {
    hide Put;
    hide Get;
    hide NoDuplicates;
    hide Ordered;
    hide IsPreorder;
    var d := CounterOf(names);
    var r := SortedItems(d);
    CounterCountsAll(names);
    SumSorted(d);
    SortDistinct(d);
    NameOrder();
    SortOrders(NameLe, d);
    SortKeeps(NameLe, d);
    forall i | 0 <= i < |r| ensures r[i].0 in names && r[i].1 == multiset(names)[r[i].0] {
      SameElements(r, d, r[i]);
      assert Keys(r)[i] in Keys(r);
      GetItem(d, r[i]);
      CounterCountsEach(names, r[i].0);
    }
  }
}
