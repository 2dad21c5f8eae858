/** Sorting by an order given as a parameter, as sort.Slice and sort.Strings do. */
module Sorting {

  /** le compares any two values, and chains. */
  ghost predicate Order<T(!new)>(le: (T, T) -> bool) {
    (forall a, b :: le(a, b) || le(b, a)) && forall a, b, c | le(a, b) && le(b, c) :: le(a, c)
  }

  ghost predicate SortedBy<T>(le: (T, T) -> bool, s: seq<T>) {
    forall i, j | 0 <= i < j < |s| :: le(s[i], s[j])
  }

  function Insert<T>(le: (T, T) -> bool, x: T, s: seq<T>): seq<T> {
    if s == [] || le(x, s[0]) then [x] + s else [s[0]] + Insert(le, x, s[1..])
  }

  function Sort<T>(le: (T, T) -> bool, s: seq<T>): seq<T> {
    if s == [] then [] else Insert(le, s[0], Sort(le, s[1..]))
  }

  /** Where x goes: before the first element that it may precede. */
  lemma {:induction false} InsertPlace<T>(le: (T, T) -> bool, x: T, s: seq<T>) returns (k: nat)
    ensures k <= |s| && Insert(le, x, s) == s[..k] + [x] + s[k..]
    ensures (forall j | 0 <= j < k :: !le(x, s[j])) && (k < |s| ==> le(x, s[k]))
    decreases |s|
  {
    if s == [] || le(x, s[0]) {
      k := 0;
    } else {
      var m := InsertPlace(le, x, s[1..]);
      k := m + 1;
    }
  }

  lemma {:induction false} InsertPermutes<T>(le: (T, T) -> bool, x: T, s: seq<T>)
    ensures multiset(Insert(le, x, s)) == multiset{x} + multiset(s)
    decreases |s|
  {
    if s != [] {
      assert s == [s[0]] + s[1..];
      InsertPermutes(le, x, s[1..]);
    }
  }

  lemma {:induction false} InsertHas<T>(le: (T, T) -> bool, x: T, s: seq<T>)
    ensures forall y :: y in Insert(le, x, s) <==> y == x || y in s
  {
    InsertPermutes(le, x, s);
    forall y
      ensures y in Insert(le, x, s) <==> y == x || y in s
    {
      assert y in Insert(le, x, s) <==> y in multiset(Insert(le, x, s));
      assert y in s <==> y in multiset(s);
    }
  }

  lemma {:induction false} InsertKeepsSorted<T(!new)>(le: (T, T) -> bool, x: T, s: seq<T>)
    requires Order(le) && SortedBy(le, s)
    ensures SortedBy(le, Insert(le, x, s))
    decreases |s|
  {
    if s == [] {
    } else if le(x, s[0]) {
      forall j | 0 <= j < |s|
        ensures le(x, s[j])
      {
        assert j > 0 ==> le(s[0], s[j]);
      }
    } else {
      InsertKeepsSorted(le, x, s[1..]);
      InsertHas(le, x, s[1..]);
      var t := Insert(le, x, s[1..]);
      forall j | 0 <= j < |t|
        ensures le(s[0], t[j])
      {
        assert t[j] in t;
        assert t[j] != x ==> t[j] in s[1..];
      }
    }
  }

  lemma {:induction false} SortSorts<T(!new)>(le: (T, T) -> bool, s: seq<T>)
    requires Order(le)
    ensures SortedBy(le, Sort(le, s)) && multiset(Sort(le, s)) == multiset(s) && |Sort(le, s)| == |s|
    decreases |s|
  {
    if s != [] {
      assert s == [s[0]] + s[1..];
      SortSorts(le, s[1..]);
      InsertKeepsSorted(le, s[0], Sort(le, s[1..]));
      InsertPermutes(le, s[0], Sort(le, s[1..]));
    }
    assert |Sort(le, s)| == |multiset(Sort(le, s))| == |multiset(s)| == |s|;
  }
}
