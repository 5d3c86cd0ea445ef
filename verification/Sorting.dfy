/** Python's `sorted`, and why a sort by distinct keys forgets the input order. */
module Sorting {

  /** Code-point order on strings, as Python compares them. */
  predicate StringLe(a: string, b: string) {
    if a == [] then true
    else if b == [] then false
    else a[0] < b[0] || (a[0] == b[0] && StringLe(a[1..], b[1..]))
  }

  lemma StringLeTotal(a: string, b: string)
    ensures StringLe(a, b) || StringLe(b, a)
  {}

  lemma StringLeTransitive(a: string, b: string, c: string)
    requires StringLe(a, b) && StringLe(b, c)
    ensures StringLe(a, c)
  {}

  lemma {:induction false} StringLeAntisymmetric(a: string, b: string)
    requires StringLe(a, b) && StringLe(b, a)
    ensures a == b
  {
    if a != [] && b != [] {
      StringLeAntisymmetric(a[1..], b[1..]);
      assert a == [a[0]] + a[1..] && b == [b[0]] + b[1..];
    }
  }

  /** A total preorder: what `sorted` needs from its key comparison. */
  ghost predicate IsPreorder<T(!new)>(le: (T, T) -> bool) {
    (forall x, y :: le(x, y) || le(y, x)) &&
    (forall x, y, z :: le(x, y) && le(y, z) ==> le(x, z))
  }

  ghost predicate Ordered<T>(le: (T, T) -> bool, s: seq<T>) {
    forall i, j :: 0 <= i < j < |s| ==> le(s[i], s[j])
  }

  function Insert<T>(le: (T, T) -> bool, x: T, s: seq<T>): seq<T> {
    if s == [] then [x]
    else if le(x, s[0]) then [x] + s
    else [s[0]] + Insert(le, x, s[1..])
  }

  /** The stable sort: an element is put before those it does not exceed. */
  function Sort<T>(le: (T, T) -> bool, s: seq<T>): seq<T> {
    if s == [] then [] else Insert(le, s[0], Sort(le, s[1..]))
  }

  lemma {:induction false} InsertKeeps<T>(le: (T, T) -> bool, x: T, s: seq<T>)
    ensures multiset(Insert(le, x, s)) == multiset(s) + multiset{x}
  {
    if s != [] {
      assert s == [s[0]] + s[1..];
      if !le(x, s[0]) {
        InsertKeeps(le, x, s[1..]);
      }
    }
  }

  lemma {:induction false} InsertOrders<T(!new)>(le: (T, T) -> bool, x: T, s: seq<T>)
    requires IsPreorder(le) && Ordered(le, s)
    ensures Ordered(le, Insert(le, x, s))
  {
    if s == [] {
    } else if le(x, s[0]) {
      var r := [x] + s;
      forall i, j | 0 <= i < j < |r| ensures le(r[i], r[j]) {
        if i == 0 { assert le(s[0], s[j - 1]); }
      }
    } else {
      var rest := Insert(le, x, s[1..]);
      InsertOrders(le, x, s[1..]);
      InsertKeeps(le, x, s[1..]);
      var r := [s[0]] + rest;
      forall i, j | 0 <= i < j < |r| ensures le(r[i], r[j]) {
        if i == 0 {
          assert rest[j - 1] in multiset(rest);
          assert rest[j - 1] == x || rest[j - 1] in multiset(s[1..]);
        }
      }
    }
  }

  lemma {:induction false} SortKeeps<T>(le: (T, T) -> bool, s: seq<T>)
    ensures multiset(Sort(le, s)) == multiset(s)
    ensures |Sort(le, s)| == |s|
  {
    if s != [] {
      SortKeeps(le, s[1..]);
      InsertKeeps(le, s[0], Sort(le, s[1..]));
      assert s == [s[0]] + s[1..];
    }
    assert |multiset(Sort(le, s))| == |multiset(s)|;
  }

  /** Equal multisets have the same elements. */
  lemma SameElements<T>(a: seq<T>, b: seq<T>, x: T)
    requires multiset(a) == multiset(b)
    ensures x in a <==> x in b
  {
    assert x in a <==> x in multiset(a);
    assert x in b <==> x in multiset(b);
  }

  lemma RepeatsCount<T>(s: seq<T>, i: nat, j: nat)
    requires i < j < |s| && s[i] == s[j]
    ensures multiset(s)[s[i]] >= 2
  {
    assert s == s[..j] + [s[j]] + s[j + 1..];
    assert s[i] in s[..j];
  }

  lemma {:induction false} SortOrders<T(!new)>(le: (T, T) -> bool, s: seq<T>)
    requires IsPreorder(le)
    ensures Ordered(le, Sort(le, s))
  {
    if s != [] {
      SortOrders(le, s[1..]);
      InsertOrders(le, s[0], Sort(le, s[1..]));
    }
  }

  /** Elements that are equal under `le` are equal, for the elements of `m`. */
  ghost predicate Separates<T>(le: (T, T) -> bool, m: multiset<T>) {
    forall x, y :: x in m && y in m && le(x, y) && le(y, x) ==> x == y
  }

  lemma OrderedHead<T>(le: (T, T) -> bool, a: seq<T>, x: T)
    requires Ordered(le, a) && x in multiset(a) && (forall y :: y in multiset(a) ==> le(y, y))
    ensures le(a[0], x)
  {
    var i :| 0 <= i < |a| && a[i] == x;
    assert a[0] in multiset(a);
  }

  lemma TailOf<T>(le: (T, T) -> bool, a: seq<T>)
    requires a != [] && Ordered(le, a)
    ensures Ordered(le, a[1..])
    ensures multiset(a[1..]) == multiset(a) - multiset{a[0]}
    ensures Separates(le, multiset(a)) ==> Separates(le, multiset(a[1..]))
    ensures forall y :: y in multiset(a[1..]) ==> y in multiset(a)
  {
    assert a == [a[0]] + a[1..];
  }

  lemma HeadsEqual<T>(le: (T, T) -> bool, a: seq<T>, b: seq<T>)
    requires forall y :: y in multiset(a) ==> le(y, y)
    requires Ordered(le, a) && Ordered(le, b) && multiset(a) == multiset(b)
    requires Separates(le, multiset(a)) && a != [] && b != []
    ensures a[0] == b[0]
  {
    assert a[0] in multiset(a) && b[0] in multiset(b);
    OrderedHead(le, a, b[0]);
    OrderedHead(le, b, a[0]);
  }

  /** Two ordered permutations of the same elements are the same sequence. */
  lemma {:induction false} OrderedPermutationsEqual<T(!new)>(le: (T, T) -> bool, a: seq<T>, b: seq<T>)
    requires forall y :: y in multiset(a) ==> le(y, y)
    requires Ordered(le, a) && Ordered(le, b) && multiset(a) == multiset(b)
    requires Separates(le, multiset(a))
    ensures a == b
  {
    hide Ordered;
    hide Separates;
    assert |multiset(a)| == |multiset(b)|;
    if a != [] {
      HeadsEqual(le, a, b);
      TailOf(le, a);
      TailOf(le, b);
      OrderedPermutationsEqual(le, a[1..], b[1..]);
      assert a == [a[0]] + a[1..];
    }
  }

  /** Sorting by distinct keys gives the same sequence for every permutation. */
  lemma SortIgnoresOrder<T(!new)>(le: (T, T) -> bool, a: seq<T>, b: seq<T>)
    requires IsPreorder(le) && multiset(a) == multiset(b) && Separates(le, multiset(a))
    ensures Sort(le, a) == Sort(le, b)
  {
    SortKeeps(le, a);
    SortKeeps(le, b);
    SortOrders(le, a);
    SortOrders(le, b);
    OrderedPermutationsEqual(le, Sort(le, a), Sort(le, b));
  }
}
