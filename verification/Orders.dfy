/**
  Byte order: the order in which Go compares strings, BoltDB walks its keys and
  sort.Strings arranges a list.
 */
module Orders {
  import opened Sorting

  /** a comes strictly before b; a proper prefix comes before its extensions. */
  predicate Below(a: seq<int>, b: seq<int>) {
    if b == [] then false
    else if a == [] then true
    else if a[0] != b[0] then a[0] < b[0]
    else Below(a[1..], b[1..])
  }

  lemma {:induction false} BelowIrreflexive(a: seq<int>)
    ensures !Below(a, a)
    decreases a
  {
    if a != [] {
      BelowIrreflexive(a[1..]);
    }
  }

  lemma {:induction false} BelowTransitive(a: seq<int>, b: seq<int>, c: seq<int>)
    requires Below(a, b) && Below(b, c)
    ensures Below(a, c)
    decreases a
  {
    if a != [] && b != [] && c != [] && a[0] == b[0] && b[0] == c[0] {
      BelowTransitive(a[1..], b[1..], c[1..]);
    }
  }

  lemma {:induction false} BelowTotal(a: seq<int>, b: seq<int>)
    requires a != b
    ensures Below(a, b) || Below(b, a)
    decreases a
  {
    if a != [] && b != [] && a[0] == b[0] {
      assert a == [a[0]] + a[1..] && b == [b[0]] + b[1..];
      BelowTotal(a[1..], b[1..]);
    }
  }

  lemma {:induction false} BelowAsymmetric(a: seq<int>, b: seq<int>)
    requires Below(a, b)
    ensures !Below(b, a) && a != b
  {
    BelowIrreflexive(a);
    if Below(b, a) {
      BelowTransitive(a, b, a);
    }
  }

  function Codes(s: string): seq<int> {
    seq(|s|, i requires 0 <= i < |s| => s[i] as int)
  }

  lemma {:induction false} CodesInjective(a: string, b: string)
    requires Codes(a) == Codes(b)
    ensures a == b
  {
    assert |Codes(a)| == |a| && |Codes(b)| == |b|;
    forall i | 0 <= i < |a|
      ensures a[i] == b[i]
    {
      assert Codes(a)[i] == a[i] as int && Codes(b)[i] == b[i] as int;
    }
  }

  predicate StrBelow(a: string, b: string) {
    Below(Codes(a), Codes(b))
  }

  lemma {:induction false} StrTotal(a: string, b: string)
    ensures a == b || StrBelow(a, b) || StrBelow(b, a)
  {
    if Codes(a) == Codes(b) {
      CodesInjective(a, b);
    } else {
      BelowTotal(Codes(a), Codes(b));
    }
  }

  lemma {:induction false} StrAsymmetric(a: string, b: string)
    requires StrBelow(a, b)
    ensures !StrBelow(b, a) && a != b
  {
    BelowAsymmetric(Codes(a), Codes(b));
  }

  lemma {:induction false} StrTransitive(a: string, b: string, c: string)
    requires StrBelow(a, b) && StrBelow(b, c)
    ensures StrBelow(a, c)
  {
    BelowTransitive(Codes(a), Codes(b), Codes(c));
  }

  // ------------------------------------------------------------------
  // A set of strings in order, as Go code gets it from a map's keys.

  ghost predicate Ascending(s: seq<string>) {
    forall i, j | 0 <= i < j < |s| :: StrBelow(s[i], s[j])
  }

  ghost function Elements(s: seq<string>): set<string> { set x | x in s }

  lemma {:induction false} ElementsLast(s: seq<string>)
    requires s != []
    ensures Elements(s) == Elements(s[..|s| - 1]) + {s[|s| - 1]}
  {
    assert s == s[..|s| - 1] + [s[|s| - 1]];
  }

  /** The order of sort.Strings. */
  predicate StrLe(a: string, b: string) { !StrBelow(b, a) }

  lemma {:induction false} StrOrder()
    ensures Order(StrLe)
  {
    forall a, b
      ensures StrLe(a, b) || StrLe(b, a)
    {
      if StrBelow(b, a) {
        StrAsymmetric(b, a);
      }
    }
    forall a, b, c | StrLe(a, b) && StrLe(b, c)
      ensures StrLe(a, c)
    {
      StrLeTransitive(a, b, c);
    }
  }

  lemma {:induction false} StrLeTransitive(a: string, b: string, c: string)
    requires StrLe(a, b) && StrLe(b, c)
    ensures StrLe(a, c)
  {
    if StrBelow(c, a) {
      StrTotal(a, b);
      if a != b {
        StrTransitive(c, a, b);
      }
    }
  }

  lemma {:induction false} SortedIsAscending(s: seq<string>)
    requires SortedBy(StrLe, s) && forall i, j | 0 <= i < j < |s| :: s[i] != s[j]
    ensures Ascending(s)
  {
    forall i, j | 0 <= i < j < |s|
      ensures StrBelow(s[i], s[j])
    {
      assert StrLe(s[i], s[j]);
      StrTotal(s[i], s[j]);
    }
  }

  method Listed(keys: set<string>) returns (s: seq<string>)
    ensures Elements(s) == keys && |s| == |keys|
  {
    s := [];
    var todo := keys;
    while todo != {}
      invariant todo <= keys && Elements(s) == keys - todo && |s| + |todo| == |keys|
      decreases todo
    {
      var k :| k in todo;
      todo := todo - {k};
      assert (s + [k])[..|s|] == s;
      ElementsLast(s + [k]);
      s := s + [k];
    }
  }

  lemma {:induction false} NoRepeats(s: seq<string>)
    requires |s| == |Elements(s)|
    ensures forall i, j | 0 <= i < j < |s| :: s[i] != s[j]
    decreases |s|
  {
    if s != [] {
      var n := |s| - 1;
      ElementsLast(s);
      ElementsFewer(s[..n]);
      NoRepeats(s[..n]);
      forall i, j | 0 <= i < j < |s|
        ensures s[i] != s[j]
      {
        assert i < n && s[i] == s[..n][i];
        assert j < n ==> s[j] == s[..n][j];
        assert s[i] in Elements(s[..n]);
      }
    }
  }

  lemma {:induction false} ElementsFewer(s: seq<string>)
    ensures |Elements(s)| <= |s|
    decreases |s|
  {
    if s != [] {
      ElementsLast(s);
      ElementsFewer(s[..|s| - 1]);
    }
  }

  /** The keys of a map, collected in any order and sorted. */
  method SortedKeys(keys: set<string>) returns (s: seq<string>)
    ensures Ascending(s) && Elements(s) == keys
  {
    var list := Listed(keys);
    s := Sort(StrLe, list);
    StrOrder();
    SortSorts(StrLe, list);
    SameElements(s, list);
    NoRepeats(s);
    SortedIsAscending(s);
  }

  lemma {:induction false} SameElements(s: seq<string>, t: seq<string>)
    requires multiset(s) == multiset(t)
    ensures Elements(s) == Elements(t)
  {
    forall x
      ensures x in s <==> x in t
    {
      assert x in s <==> x in multiset(s);
      assert x in t <==> x in multiset(t);
    }
  }

  /** Going through the list adds one new element at a time, above all before it. */
  lemma {:induction false} NextElement(s: seq<string>, i: nat)
    requires Ascending(s) && i < |s|
    ensures Elements(s[..i + 1]) == Elements(s[..i]) + {s[i]}
    ensures s[i] !in Elements(s[..i]) && forall k | k in Elements(s[..i]) :: StrBelow(k, s[i])
    ensures s[i] in Elements(s)
  {
    assert s[..i + 1] == s[..i] + [s[i]];
    BelowIrreflexive(Codes(s[i]));
  }
}
