/**
  Composite map keys: internal/feature/negcache/negcache.go and
  internal/feature/abuse/abuse.go both join two strings with a NUL byte.
 */
module Keys {

  const NUL: char := '\0'

  function PairKey(first: string, second: string): string {
    first + [NUL] + second
  }

  datatype Split = Malformed | Parts(first: string, second: string)

  /** The part before the first NUL and the part after it. */
  function SplitAt(key: string, i: nat): Split
    requires i <= |key|
    decreases |key| - i
  {
    if i == |key| then Malformed
    else if key[i] == NUL then Parts(key[..i], key[i + 1..])
    else SplitAt(key, i + 1)
  }

  lemma {:induction false} SplitAtFirstNul(key: string, i: nat, n: nat)
    requires i <= n < |key| && key[n] == NUL
    requires forall j | i <= j < n :: key[j] != NUL
    ensures SplitAt(key, i) == Parts(key[..n], key[n + 1..])
    decreases n - i
  {
    if i < n {
      SplitAtFirstNul(key, i + 1, n);
    }
  }

  /** SplitKey undoes PairKey for every NUL-free first part. */
  lemma {:induction false} PairKeyRoundTrip(first: string, second: string)
    requires NUL !in first
    ensures SplitAt(PairKey(first, second), 0) == Parts(first, second)
  {
    var key := PairKey(first, second);
    SplitAtFirstNul(key, 0, |first|);
    assert key[..|first|] == first && key[|first| + 1..] == second;
  }

  /** So two NUL-free hosts never share a key. */
  lemma {:induction false} PairKeyInjective(a: string, b: string, a': string, b': string)
    requires NUL !in a && NUL !in a'
    requires PairKey(a, b) == PairKey(a', b')
    ensures a == a' && b == b'
  {
    PairKeyRoundTrip(a, b);
    PairKeyRoundTrip(a', b');
  }

  /** One of the hosts is the other with a NUL and more behind it. */
  predicate Clash(a: string, a': string) { a + [NUL] <= a' || a' + [NUL] <= a }

  /** What follows the longer host's common part. */
  lemma {:induction false} ClashSplits(a: string, a': string)
    requires a + [NUL] <= a'
    ensures a' == PairKey(a, a'[|a| + 1..])
  {
    assert a' == (a + [NUL]) + a'[|a| + 1..];
  }

  /** Where first parts do not clash, a joined key still determines both parts. */
  lemma {:induction false} NoClashInjective(a: string, b: string, a': string, b': string)
    requires !Clash(a, a') && PairKey(a, b) == PairKey(a', b')
    ensures a == a' && b == b'
  {
    var key := PairKey(a, b);
    assert a == key[..|a|] && a' == key[..|a'|];
    assert key[..|a| + 1] == a + [NUL] && key[..|a'| + 1] == a' + [NUL];
    assert |a| < |a'| ==> a + [NUL] <= a';
    assert |a'| < |a| ==> a' + [NUL] <= a;
    assert b == key[|a| + 1..] && b' == key[|a'| + 1..];
  }

  /** Exactly which different hosts can share a key. */
  lemma {:induction false} HostsShareKeyIff(a: string, a': string)
    requires a != a'
    ensures (exists b, b' :: PairKey(a, b) == PairKey(a', b')) <==> Clash(a, a')
  {
    if a + [NUL] <= a' {
      ClashSplits(a, a');
      assert PairKey(a, PairKey(a'[|a| + 1..], "")) == PairKey(a', "");
    } else if a' + [NUL] <= a {
      ClashSplits(a', a);
      assert PairKey(a, "") == PairKey(a', PairKey(a[|a'| + 1..], ""));
    } else if b, b' :| PairKey(a, b) == PairKey(a', b') {
      NoClashInjective(a, b, a', b');
    }
  }

  /** The program's own loop over the key. */
  method SplitKey(key: string) returns (r: Split)
    ensures r == SplitAt(key, 0)
    ensures r.Malformed? <==> NUL !in key
    ensures r.Parts? ==> PairKey(r.first, r.second) == key && NUL !in r.first
  {
    for i := 0 to |key|
      invariant SplitAt(key, 0) == SplitAt(key, i)
      invariant NUL !in key[..i]
    {
      if key[i] == NUL {
        return Parts(key[..i], key[i + 1..]);
      }
    }
    assert key[..|key|] == key;
    return Malformed;
  }
}
