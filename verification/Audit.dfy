/**
  The time index of the audit log, internal/admin/audit.go. Events are stored
  in an ordered key-value bucket under an 8-byte big-endian nanosecond key;
  events of the same nanosecond get a 2-byte sequence suffix, found by probing.

  The bucket is the byte-ordered list of rows that BoltDB presents.
 */
module Audit {
  import opened Orders

  datatype Event = Event(time: int, body: string)

  datatype Row = Row(key: seq<int>, payload: Event)

  /** An indexed event: clamped time, and how many events of that time came before it. */
  datatype Rec = Rec(nano: int, rank: nat, event: Event)

  const NANO_LIMIT: int := 0x8000_0000_0000_0000
  const SEQ_LIMIT: int := 0x1_0000

  // ------------------------------------------------------------------
  // Big-endian keys.

  function Power(k: nat): (p: nat)
    ensures p > 0
  {
    if k == 0 then 1 else 256 * Power(k - 1)
  }

  /** n in k bytes, most significant first. */
  function BigEndian(n: nat, k: nat): seq<int> {
    if k == 0 then [] else BigEndian(n / 256, k - 1) + [n % 256]
  }

  function FromBigEndian(bytes: seq<int>): int {
    if bytes == [] then 0 else 256 * FromBigEndian(bytes[..|bytes| - 1]) + bytes[|bytes| - 1]
  }

  lemma {:induction false} BigEndianLength(n: nat, k: nat)
    ensures |BigEndian(n, k)| == k
    ensures forall b | b in BigEndian(n, k) :: 0 <= b < 256
    decreases k
  {
    if k > 0 {
      BigEndianLength(n / 256, k - 1);
    }
  }

  lemma {:induction false} BigEndianRoundTrip(n: nat, k: nat)
    requires n < Power(k)
    ensures FromBigEndian(BigEndian(n, k)) == n
    decreases k
  {
    if k > 0 {
      BigEndianRoundTrip(n / 256, k - 1);
      assert BigEndian(n, k)[..|BigEndian(n, k)| - 1] == BigEndian(n / 256, k - 1);
    }
  }

  /** Byte order on equal-length prefixes is numeric order, then the order of what follows. */
  lemma {:induction false} BigEndianOrder(a: nat, b: nat, k: nat, x: seq<int>, y: seq<int>)
    requires a < Power(k) && b < Power(k)
    ensures Below(BigEndian(a, k) + x, BigEndian(b, k) + y) <==> a < b || (a == b && Below(x, y))
    decreases k
  {
    if k == 0 {
      assert BigEndian(a, k) + x == x && BigEndian(b, k) + y == y;
    } else {
      var x', y' := [a % 256] + x, [b % 256] + y;
      assert BigEndian(a, k) + x == BigEndian(a / 256, k - 1) + x';
      assert BigEndian(b, k) + y == BigEndian(b / 256, k - 1) + y';
      BigEndianOrder(a / 256, b / 256, k - 1, x', y');
      assert x'[1..] == x && y'[1..] == y;
    }
  }

  function Clamp(n: int): nat { if n < 0 then 0 else n }

  function NanoKey(time: int): seq<int> { BigEndian(Clamp(time), 8) }

  function AppendSeq(base: seq<int>, s: nat): seq<int> { base + BigEndian(s, 2) }

  /** The key that probe number s tries. */
  function ProbeKey(time: int, s: nat): seq<int> {
    if s == 0 then NanoKey(time) else AppendSeq(NanoKey(time), s)
  }

  function KeyAtOrBefore(key: seq<int>, since: int): bool {
    if |key| < 8 then true else FromBigEndian(key[..8]) <= since
  }

  predicate Before(a: Rec, b: Rec) {
    a.nano < b.nano || (a.nano == b.nano && a.rank < b.rank)
  }

  lemma {:induction false} PowerEight()
    ensures Power(8) == 0x1_0000_0000_0000_0000 && Power(2) == 0x1_0000
  {
    assert Power(1) == 256 && Power(2) == 0x1_0000 && Power(3) == 0x100_0000 && Power(4) == 0x1_0000_0000;
    assert Power(5) == 0x100_0000_0000 && Power(6) == 0x1_0000_0000_0000 && Power(7) == 0x100_0000_0000_0000;
  }

  /** The byte order of index keys is the order on (time, sequence number). */
  lemma {:induction false} KeyOrder(n: nat, s: nat, n': nat, s': nat)
    requires n < NANO_LIMIT && n' < NANO_LIMIT && s < SEQ_LIMIT && s' < SEQ_LIMIT
    ensures Below(ProbeKey(n, s), ProbeKey(n', s')) <==> n < n' || (n == n' && s < s')
  {
    PowerEight();
    var x := if s == 0 then [] else BigEndian(s, 2);
    var y := if s' == 0 then [] else BigEndian(s', 2);
    assert ProbeKey(n, s) == BigEndian(n, 8) + x && ProbeKey(n', s') == BigEndian(n', 8) + y;
    BigEndianOrder(n, n', 8, x, y);
    BigEndianLength(s, 2);
    BigEndianLength(s', 2);
    assert x + [] == x && y + [] == y;
    BigEndianOrder(s, s', 2, [], []);
  }

  lemma {:induction false} KeyInjective(n: nat, s: nat, n': nat, s': nat)
    requires n < NANO_LIMIT && n' < NANO_LIMIT && s < SEQ_LIMIT && s' < SEQ_LIMIT
    ensures ProbeKey(n, s) == ProbeKey(n', s') ==> n == n' && s == s'
  {
    KeyOrder(n, s, n', s');
    KeyOrder(n', s', n, s);
    BelowIrreflexive(ProbeKey(n, s));
  }

  lemma {:induction false} KeyTime(n: nat, s: nat, since: int)
    requires n < NANO_LIMIT && s < SEQ_LIMIT
    ensures KeyAtOrBefore(ProbeKey(n, s), since) <==> n <= since
  {
    PowerEight();
    BigEndianLength(n, 8);
    assert ProbeKey(n, s)[..8] == BigEndian(n, 8);
    BigEndianRoundTrip(n, 8);
  }

  // ------------------------------------------------------------------
  // What the index must hold.

  /** How many of the writes carry the clamped time n. */
  function CountAt(writes: seq<Event>, n: int): nat {
    if writes == [] then 0
    else CountAt(writes[..|writes| - 1], n) + if Clamp(writes[|writes| - 1].time) == n then 1 else 0
  }

  /** The i-th write as an indexed event: its rank is the number of earlier writes of the same time. */
  function RecOf(writes: seq<Event>, i: nat): Rec
    requires i < |writes|
  {
    Rec(Clamp(writes[i].time), CountAt(writes[..i], Clamp(writes[i].time)), writes[i])
  }

  ghost predicate Sorted(l: seq<Rec>) {
    forall i, j | 0 <= i < j < |l| :: Before(l[i], l[j])
  }

  /** l lists every write exactly once, by time and then by write order. */
  ghost predicate Lists(l: seq<Rec>, writes: seq<Event>) {
    && Sorted(l)
    && forall r :: r in l <==> exists i: nat | i < |writes| :: r == RecOf(writes, i)
  }

  /** Time and write order leave one listing only. */
  lemma {:induction false} ListingUnique(l: seq<Rec>, l': seq<Rec>)
    requires Sorted(l) && Sorted(l')
    requires forall r :: r in l <==> r in l'
    ensures l == l'
    decreases |l|
  {
    if l != [] {
      assert l[0] in l';
    }
    if l' != [] {
      assert l'[0] in l;
    }
    if l != [] && l' != [] {
      assert l[0] == l'[0];
      forall r
        ensures r in l[1..] <==> r in l'[1..]
      {
        assert r in l <==> r == l[0] || r in l[1..];
        assert r in l' <==> r == l'[0] || r in l'[1..];
      }
      ListingUnique(l[1..], l'[1..]);
    }
  }

  lemma {:induction false} RecOfAppend(writes: seq<Event>, e: Event)
    ensures forall i: nat | i < |writes| :: RecOf(writes + [e], i) == RecOf(writes, i)
    ensures RecOf(writes + [e], |writes|) == Rec(Clamp(e.time), CountAt(writes, Clamp(e.time)), e)
  {
    forall i: nat | i < |writes|
      ensures RecOf(writes + [e], i) == RecOf(writes, i)
    {
      assert (writes + [e])[..i] == writes[..i];
    }
    assert (writes + [e])[..|writes|] == writes;
  }

  /** The ranks in use at time n are exactly 0 .. CountAt - 1. */
  lemma {:induction false} RankUsed(writes: seq<Event>, n: int, s: nat)
    ensures s < CountAt(writes, n) <==>
              exists i: nat | i < |writes| :: RecOf(writes, i).nano == n && RecOf(writes, i).rank == s
    decreases writes
  {
    if writes != [] {
      var p, e := writes[..|writes| - 1], writes[|writes| - 1];
      assert writes == p + [e];
      RankUsed(p, n, s);
      RecOfAppend(p, e);
      assert forall i: nat | i < |p| :: RecOf(writes, i) == RecOf(p, i);
      assert s < CountAt(writes, n) <==>
        s < CountAt(p, n) || (RecOf(writes, |p|).nano == n && RecOf(writes, |p|).rank == s);
      if i: nat :| i < |p| && RecOf(p, i).nano == n && RecOf(p, i).rank == s {
        assert RecOf(writes, i).nano == n && RecOf(writes, i).rank == s;
      }
    }
  }

  /** The events of l strictly later than since. */
  function After(l: seq<Rec>, since: int): seq<Event> {
    if l == [] then []
    else (if l[0].nano > since then [l[0].event] else []) + After(l[1..], since)
  }

  function FirstN(es: seq<Event>, limit: int): seq<Event> {
    if 0 < limit < |es| then es[..limit] else es
  }

  function Events(l: seq<Rec>): seq<Event> {
    seq(|l|, i requires 0 <= i < |l| => l[i].event)
  }

  /** On a sorted listing the later events are a suffix. */
  lemma {:induction false} AfterIsSuffix(l: seq<Rec>, since: int, i: nat)
    requires Sorted(l) && i <= |l|
    requires forall j | 0 <= j < i :: l[j].nano <= since
    requires i < |l| ==> l[i].nano > since
    ensures After(l, since) == Events(l[i..])
    decreases |l|
  {
    if l != [] {
      if i > 0 {
        AfterIsSuffix(l[1..], since, i - 1);
        assert l[1..][i - 1..] == l[i..];
      } else {
        assert |l| > 1 ==> Before(l[0], l[1]);
        AfterIsSuffix(l[1..], since, 0);
        assert Events(l[0..]) == [l[0].event] + Events(l[1..]);
      }
    }
  }

  // ------------------------------------------------------------------
  // Times before the epoch.

  /** All later than since, and by their true times. */
  ghost predicate RightTimes(es: seq<Event>, since: int) {
    && (forall i | 0 <= i < |es| :: es[i].time > since)
    && (forall i, j | 0 <= i < j < |es| :: es[i].time <= es[j].time)
  }

  /**
    Clamping does no harm: since is not before the epoch, or nothing at or
    before since was written and the times up to the epoch came in order.
   */
  ghost predicate ClampHarmless(writes: seq<Event>, since: int) {
    || since >= 0
    || (&& (forall i | 0 <= i < |writes| :: writes[i].time > since)
        && (forall i, j | 0 <= i < j < |writes| && writes[i].time <= 0 && writes[j].time <= 0 ::
              writes[i].time <= writes[j].time))
  }

  /** Each write adds one to the count of its time. */
  lemma {:induction false} CountGrows(writes: seq<Event>, i: nat, j: nat, n: int)
    requires i <= j <= |writes|
    ensures CountAt(writes[..i], n) <= CountAt(writes[..j], n)
    ensures i < j && Clamp(writes[i].time) == n ==> CountAt(writes[..i], n) < CountAt(writes[..j], n)
    decreases j
  {
    if i < j {
      assert writes[..j][..j - 1] == writes[..j - 1];
      CountGrows(writes, i, j - 1, n);
    }
  }

  /** Records of one clamped time stand in the order of writing. */
  lemma {:induction false} RanksAscend(writes: seq<Event>, i: nat, j: nat)
    requires i < |writes| && j < |writes| && RecOf(writes, i).nano == RecOf(writes, j).nano
    ensures RecOf(writes, i).rank < RecOf(writes, j).rank <==> i < j
  {
    if i < j {
      CountGrows(writes, i, j, RecOf(writes, i).nano);
    } else {
      CountGrows(writes, j, i, RecOf(writes, i).nano);
    }
  }

  /** The place of a write in the listing. */
  lemma {:induction false} PlaceOf(l: seq<Rec>, writes: seq<Event>, i: nat) returns (p: nat)
    requires Lists(l, writes) && i < |writes|
    ensures p < |l| && l[p] == RecOf(writes, i)
  {
    assert RecOf(writes, i) in l;
    p :| 0 <= p < |l| && l[p] == RecOf(writes, i);
  }

  /** The write at a place of the listing. */
  lemma {:induction false} WriteAt(l: seq<Rec>, writes: seq<Event>, p: nat) returns (i: nat)
    requires Lists(l, writes) && p < |l|
    ensures i < |writes| && l[p] == RecOf(writes, i)
  {
    assert l[p] in l;
    i :| i < |writes| && l[p] == RecOf(writes, i);
  }

  /** With since before the epoch the whole listing is reported. */
  lemma {:induction false} HarmlessListing(l: seq<Rec>, writes: seq<Event>, since: int)
    requires Lists(l, writes) && since < 0 && ClampHarmless(writes, since)
    ensures RightTimes(Events(l), since)
  {
    forall p | 0 <= p < |l|
      ensures l[p].event.time > since
    {
      var i := WriteAt(l, writes, p);
    }
    forall p, q | 0 <= p < q < |l|
      ensures l[p].event.time <= l[q].event.time
    {
      var i := WriteAt(l, writes, p);
      var j := WriteAt(l, writes, q);
      assert Before(l[p], l[q]);
      if l[p].nano == l[q].nano {
        RanksAscend(writes, i, j);
      }
    }
  }

  lemma {:induction false} RightListing(l: seq<Rec>, writes: seq<Event>, since: int)
    requires Lists(l, writes) && since < 0 && RightTimes(Events(l), since)
    ensures ClampHarmless(writes, since)
  {
    forall i | 0 <= i < |writes|
      ensures writes[i].time > since
    {
      var p := PlaceOf(l, writes, i);
      assert Events(l)[p] == writes[i];
    }
    forall i, j | 0 <= i < j < |writes| && writes[i].time <= 0 && writes[j].time <= 0
      ensures writes[i].time <= writes[j].time
    {
      var p := PlaceOf(l, writes, i);
      var q := PlaceOf(l, writes, j);
      RanksAscend(writes, i, j);
      assert p < q && Events(l)[p] == writes[i] && Events(l)[q] == writes[j];
    }
  }

  /** Where the later events begin. */
  lemma {:induction false} SplitLater(l: seq<Rec>, since: int) returns (k: nat)
    requires Sorted(l)
    ensures k <= |l| && (forall j | 0 <= j < k :: l[j].nano <= since) && (forall j | k <= j < |l| :: l[j].nano > since)
    decreases |l|
  {
    if l == [] || l[|l| - 1].nano <= since {
      k := |l|;
      assert forall j | 0 <= j < |l| - 1 :: Before(l[j], l[|l| - 1]);
    } else {
      k := SplitLater(l[..|l| - 1], since);
    }
  }

  /** Exactly when what is reported is later than since and in the order of the events' own times. */
  lemma {:induction false} TrueTimesIff(l: seq<Rec>, writes: seq<Event>, since: int)
    requires Lists(l, writes)
    ensures RightTimes(After(l, since), since) <==> ClampHarmless(writes, since)
  {
    var k := SplitLater(l, since);
    AfterIsSuffix(l, since, k);
    if since >= 0 {
      forall p | k <= p < |l|
        ensures l[p].event.time == l[p].nano
      {
        var i := WriteAt(l, writes, p);
      }
      assert forall p, q | k <= p < q < |l| :: Before(l[p], l[q]);
    } else {
      forall p | 0 <= p < |l|
        ensures l[p].nano >= 0
      {
        var i := WriteAt(l, writes, p);
      }
      assert k == 0 && l[0..] == l;
      if ClampHarmless(writes, since) {
        HarmlessListing(l, writes, since);
      } else if RightTimes(Events(l), since) {
        RightListing(l, writes, since);
      }
    }
  }

  /** An event at the epoch, then one from before it: both come out, in the wrong order. */
  lemma {:induction false} EpochOutOfOrder(l: seq<Rec>, first: Event, second: Event)
    requires first.time == 0 && second.time == -5 && Lists(l, [first, second])
    ensures !RightTimes(After(l, -10), -10)
  {
    var writes := [first, second];
    assert writes[0].time > writes[1].time;
    TrueTimesIff(l, writes, -10);
  }

  // ------------------------------------------------------------------
  // The answer to a query, in terms of the writes alone.

  /** The time an event is indexed at: its own, but never before the epoch. */
  function TimeOf(e: Event): int { if e.time < 0 then 0 else e.time }

  /** Write i is reported before write j: it is earlier, or of the same time and written first. */
  ghost predicate Precedes(writes: seq<Event>, i: nat, j: nat)
    requires i < |writes| && j < |writes|
  {
    TimeOf(writes[i]) < TimeOf(writes[j]) || (TimeOf(writes[i]) == TimeOf(writes[j]) && i < j)
  }

  /** The writes of these numbers, in this order, are the first limit (or all) of those later than since. */
  ghost predicate Answers(out: seq<Event>, idx: seq<nat>, writes: seq<Event>, since: int, limit: int) {
    && |out| == |idx| && (limit > 0 ==> |out| <= limit)
    && (forall j | 0 <= j < |idx| :: idx[j] < |writes| && out[j] == writes[idx[j]] && TimeOf(out[j]) > since)
    && (forall i, j | 0 <= i < j < |idx| :: idx[i] < |writes| && idx[j] < |writes| && Precedes(writes, idx[i], idx[j]))
    && (forall k: nat | k < |writes| && TimeOf(writes[k]) > since ::
          || k in idx
          || (limit > 0 && |out| == limit
              && forall j | 0 <= j < |idx| :: idx[j] < |writes| && Precedes(writes, idx[j], k)))
  }

  ghost function NumberAt(l: seq<Rec>, writes: seq<Event>, p: nat): (i: nat)
    requires Lists(l, writes) && p < |l|
    ensures i < |writes| && l[p] == RecOf(writes, i)
  {
    assert l[p] in l;
    var i: nat :| i < |writes| && l[p] == RecOf(writes, i);
    i
  }

  ghost function Numbers(l: seq<Rec>, writes: seq<Event>, s: nat, n: nat): (idx: seq<nat>)
    requires Lists(l, writes) && s + n <= |l|
    ensures |idx| == n && forall j | 0 <= j < n :: idx[j] < |writes| && l[s + j] == RecOf(writes, idx[j])
  {
    if n == 0 then [] else Numbers(l, writes, s, n - 1) + [NumberAt(l, writes, s + n - 1)]
  }

  lemma {:induction false} ListedInOrder(l: seq<Rec>, writes: seq<Event>, p: nat, q: nat, i: nat, j: nat)
    requires Lists(l, writes) && p < q < |l| && i < |writes| && j < |writes|
    requires l[p] == RecOf(writes, i) && l[q] == RecOf(writes, j)
    ensures Precedes(writes, i, j)
  {
    assert Before(l[p], l[q]);
    if l[p].nano == l[q].nano {
      RanksAscend(writes, i, j);
    }
  }

  lemma {:induction false} FirstAreAnswers(l: seq<Rec>, writes: seq<Event>, since: int, limit: int)
    returns (idx: seq<nat>)
    requires Lists(l, writes)
    ensures Answers(FirstN(After(l, since), limit), idx, writes, since, limit)
  {
    var s := SplitLater(l, since);
    AfterIsSuffix(l, since, s);
    var out := FirstN(After(l, since), limit);
    idx := Numbers(l, writes, s, |out|);
    forall j | 0 <= j < |idx|
      ensures out[j] == writes[idx[j]] && TimeOf(out[j]) > since
    {
      assert Events(l[s..])[j] == l[s + j].event;
    }
    forall i, j | 0 <= i < j < |idx|
      ensures Precedes(writes, idx[i], idx[j])
    {
      ListedInOrder(l, writes, s + i, s + j, idx[i], idx[j]);
    }
    forall k: nat | k < |writes| && TimeOf(writes[k]) > since && k !in idx
      ensures limit > 0 && |out| == limit && forall j | 0 <= j < |idx| :: Precedes(writes, idx[j], k)
    {
      var p := PlaceOf(l, writes, k);
      assert p >= s;
      if p < s + |out| {
        SameNumber(writes, idx[p - s], k);
      }
      forall j | 0 <= j < |idx|
        ensures Precedes(writes, idx[j], k)
      {
        ListedInOrder(l, writes, s + j, p, idx[j], k);
      }
    }
  }

  lemma {:induction false} SameNumber(writes: seq<Event>, i: nat, j: nat)
    requires i < |writes| && j < |writes| && RecOf(writes, i) == RecOf(writes, j)
    ensures i == j
  {
    RanksAscend(writes, i, j);
    RanksAscend(writes, j, i);
  }

  // ------------------------------------------------------------------
  // The coupling between bucket and listing.

  ghost predicate InRange(l: seq<Rec>) {
    forall i | 0 <= i < |l| :: 0 <= l[i].nano < NANO_LIMIT && l[i].rank < SEQ_LIMIT
  }

  ghost predicate Indexes(bucket: seq<Row>, l: seq<Rec>) {
    && |bucket| == |l|
    && InRange(l)
    && forall i | 0 <= i < |l| :: bucket[i] == Row(ProbeKey(l[i].nano, l[i].rank), l[i].event)
  }

  function InsertAt<T>(s: seq<T>, i: nat, x: T): seq<T>
    requires i <= |s|
  {
    s[..i] + [x] + s[i..]
  }

  /** A row put in key order is a record put in (time, rank) order. */
  lemma {:induction false} PutKeepsListing(l: seq<Rec>, writes: seq<Event>, e: Event, i: nat)
    requires Lists(l, writes) && i <= |l|
    requires var r := Rec(Clamp(e.time), CountAt(writes, Clamp(e.time)), e);
             && (forall j | 0 <= j < i :: Before(l[j], r))
             && (forall j | i <= j < |l| :: Before(r, l[j]))
    ensures Lists(InsertAt(l, i, Rec(Clamp(e.time), CountAt(writes, Clamp(e.time)), e)), writes + [e])
  {
    var r := Rec(Clamp(e.time), CountAt(writes, Clamp(e.time)), e);
    var l' := InsertAt(l, i, r);
    var writes' := writes + [e];
    RecOfAppend(writes, e);
    forall x
      ensures x in l' <==> exists k: nat | k < |writes'| :: x == RecOf(writes', k)
    {
      assert x in l' <==> x in l || x == r;
      if x in l {
        var k: nat :| k < |writes| && x == RecOf(writes, k);
        assert x == RecOf(writes', k);
      }
      if x == r {
        assert x == RecOf(writes', |writes|);
      }
      if k: nat :| k < |writes'| && x == RecOf(writes', k) {
        assert k < |writes| ==> x == RecOf(writes, k);
      }
    }
  }

  ghost predicate Coupled(bucket: seq<Row>, l: seq<Rec>, writes: seq<Event>) {
    Indexes(bucket, l) && Lists(l, writes)
  }

  predicate HasKey(bucket: seq<Row>, key: seq<int>) {
    exists i | 0 <= i < |bucket| :: bucket[i].key == key
  }

  /** i is where Cursor.Seek(key) lands: the first row whose key is not before key. */
  predicate SeeksTo(bucket: seq<Row>, key: seq<int>, i: nat) {
    && i <= |bucket|
    && (forall j | 0 <= j < i :: Below(bucket[j].key, key))
    && (i < |bucket| ==> !Below(bucket[i].key, key))
  }

  /** A probe key is taken exactly when its sequence number is below the number of events of that time. */
  lemma {:induction false} ProbeTaken(bucket: seq<Row>, l: seq<Rec>, writes: seq<Event>, n: nat, s: nat)
    requires Coupled(bucket, l, writes) && n < NANO_LIMIT && s < SEQ_LIMIT
    ensures HasKey(bucket, ProbeKey(n, s)) <==> s < CountAt(writes, n)
  {
    RankUsed(writes, n, s);
    if HasKey(bucket, ProbeKey(n, s)) {
      var i :| 0 <= i < |bucket| && bucket[i].key == ProbeKey(n, s);
      KeyInjective(l[i].nano, l[i].rank, n, s);
      assert l[i] in l;
      var k: nat :| k < |writes| && l[i] == RecOf(writes, k);
      assert RecOf(writes, k).nano == n && RecOf(writes, k).rank == s;
    }
    if s < CountAt(writes, n) {
      var k: nat :| k < |writes| && RecOf(writes, k).nano == n && RecOf(writes, k).rank == s;
      assert RecOf(writes, k) in l;
      var i :| 0 <= i < |l| && l[i] == RecOf(writes, k);
      assert bucket[i].key == ProbeKey(n, s);
    }
  }

  /** Everything before the Seek position is an earlier record, everything from it on a later or equal one. */
  lemma {:induction false} SeekSplits(bucket: seq<Row>, l: seq<Rec>, n: nat, s: nat, i: nat)
    requires Indexes(bucket, l) && Sorted(l) && n < NANO_LIMIT && s < SEQ_LIMIT
    requires SeeksTo(bucket, ProbeKey(n, s), i)
    ensures forall j | 0 <= j < i :: l[j].nano < n || (l[j].nano == n && l[j].rank < s)
    ensures forall j | i <= j < |l| :: l[j].nano > n || (l[j].nano == n && l[j].rank >= s)
  {
    forall j | 0 <= j < |l|
      ensures Below(bucket[j].key, ProbeKey(n, s)) <==> l[j].nano < n || (l[j].nano == n && l[j].rank < s)
    {
      KeyOrder(l[j].nano, l[j].rank, n, s);
    }
    assert forall j | i < j < |l| :: Before(l[i], l[j]);
  }

  lemma {:induction false} PutKeepsIndexes(bucket: seq<Row>, l: seq<Rec>, i: nat, r: Rec)
    requires Indexes(bucket, l) && i <= |l| && 0 <= r.nano < NANO_LIMIT && r.rank < SEQ_LIMIT
    ensures Indexes(InsertAt(bucket, i, Row(ProbeKey(r.nano, r.rank), r.event)), InsertAt(l, i, r))
  {}

  /** Writing under the first free probe key keeps bucket, listing and writes in step. */
  lemma {:induction false} PutKeepsCoupled(
    bucket: seq<Row>, l: seq<Rec>, writes: seq<Event>, e: Event, i: nat)
    requires Coupled(bucket, l, writes) && Clamp(e.time) < NANO_LIMIT && CountAt(writes, Clamp(e.time)) < SEQ_LIMIT
    requires SeeksTo(bucket, ProbeKey(Clamp(e.time), CountAt(writes, Clamp(e.time))), i)
    ensures var r := Rec(Clamp(e.time), CountAt(writes, Clamp(e.time)), e);
            Coupled(InsertAt(bucket, i, Row(ProbeKey(r.nano, r.rank), e)), InsertAt(l, i, r), writes + [e])
  {
    var n := Clamp(e.time);
    var s := CountAt(writes, n);
    SeekSplits(bucket, l, n, s, i);
    ProbeTaken(bucket, l, writes, n, s);
    forall j | i <= j < |l|
      ensures Before(Rec(n, s, e), l[j])
    {
      assert bucket[j].key != ProbeKey(n, s);
    }
    PutKeepsListing(l, writes, e, i);
    PutKeepsIndexes(bucket, l, i, Rec(n, s, e));
  }

  predicate RowsAre(bucket: seq<Row>, start: nat, es: seq<Event>)
    requires start <= |bucket|
  {
    && |es| == |bucket| - start
    && forall i | 0 <= i < |es| :: bucket[start + i].payload == es[i]
  }

  lemma {:induction false} LaterRows(bucket: seq<Row>, l: seq<Rec>, since: int, start: nat)
    requires Indexes(bucket, l) && Sorted(l) && start <= |l|
    requires forall j | 0 <= j < start :: l[j].nano <= since
    requires start < |l| ==> l[start].nano > since
    ensures RowsAre(bucket, start, After(l, since))
  {
    AfterIsSuffix(l, since, start);
  }

  // ------------------------------------------------------------------
  // The program.

  class Log {
    var bucket: seq<Row>
    var closed: bool
    ghost var writes: seq<Event>
    ghost var listing: seq<Rec>

    ghost predicate Valid()
      reads this
    {
      Coupled(bucket, listing, writes)
    }

    constructor ()
      ensures Valid() && writes == [] && !closed
    {
      bucket, closed := [], false;
      writes, listing := [], [];
    }

    method Get(key: seq<int>) returns (found: bool)
      ensures found <==> HasKey(bucket, key)
    {
      for i := 0 to |bucket|
        invariant forall j | 0 <= j < i :: bucket[j].key != key
      {
        if bucket[i].key == key {
          return true;
        }
      }
      return false;
    }

    method Seek(key: seq<int>) returns (i: nat)
      ensures SeeksTo(bucket, key, i)
    {
      i := 0;
      while i < |bucket| && Below(bucket[i].key, key)
        invariant i <= |bucket|
        invariant forall j | 0 <= j < i :: Below(bucket[j].key, key)
      {
        i := i + 1;
      }
    }

    /** The probing loop: the first free key, or none when all sequence numbers are taken. */
    method FreeKey(time: int) returns (ok: bool, k: seq<int>)
      requires Valid() && time < NANO_LIMIT
      ensures ok <==> CountAt(writes, Clamp(time)) < SEQ_LIMIT
      ensures ok ==> k == ProbeKey(Clamp(time), CountAt(writes, Clamp(time)))
    {
      ghost var n := Clamp(time);
      k := NanoKey(time);
      var s := 0;
      ProbeTaken(bucket, listing, writes, n, 0);
      var taken := Get(k);
      while taken
        invariant 0 <= s < SEQ_LIMIT && k == ProbeKey(n, s)
        invariant taken <==> s < CountAt(writes, n)
        invariant s <= CountAt(writes, n)
        decreases SEQ_LIMIT - s
      {
        s := (s + 1) % SEQ_LIMIT;
        if s == 0 {
          return false, k;
        }
        k := AppendSeq(NanoKey(time), s);
        ProbeTaken(bucket, listing, writes, n, s);
        taken := Get(k);
      }
      return true, k;
    }

    /**
      Write indexes the event under the first free probe key. prepared says
      that marshalling, the leak check and the file append went through.
     */
    method Write(e: Event, prepared: bool) returns (ok: bool)
      requires Valid() && e.time < NANO_LIMIT
      modifies this`bucket, this`writes, this`listing
      ensures Valid()
      ensures ok <==> prepared && !closed && CountAt(old(writes), Clamp(e.time)) < SEQ_LIMIT
      ensures writes == if ok then old(writes) + [e] else old(writes)
      ensures !ok ==> bucket == old(bucket)
    {
      if !prepared || closed {
        return false;
      }
      var k;
      ok, k := FreeKey(e.time);
      if ok {
        var i := Seek(k);
        PutKeepsCoupled(bucket, listing, writes, e, i);
        bucket := InsertAt(bucket, i, Row(k, e));
        listing := InsertAt(listing, i, Rec(Clamp(e.time), CountAt(writes, Clamp(e.time)), e));
        writes := writes + [e];
      }
    }

    method Close()
      requires Valid()
      modifies this`closed
      ensures Valid() && closed
    {
      closed := true;
    }

    /** Seek and the loop that skips the events at or before since. */
    method FirstAfter(since: int) returns (i: nat)
      requires Valid() && since < NANO_LIMIT
      ensures i <= |listing|
      ensures forall j | 0 <= j < i :: listing[j].nano <= since
      ensures i < |listing| ==> listing[i].nano > since
    {
      i := Seek(NanoKey(since));
      assert NanoKey(since) == ProbeKey(Clamp(since), 0);
      SeekSplits(bucket, listing, Clamp(since), 0, i);
      while i < |bucket| && KeyAtOrBefore(bucket[i].key, since)
        invariant i <= |bucket|
        invariant forall j | 0 <= j < i :: listing[j].nano <= since
      {
        KeyTime(listing[i].nano, listing[i].rank, since);
        i := i + 1;
      }
      if i < |bucket| {
        KeyTime(listing[i].nano, listing[i].rank, since);
      }
    }

    /** The cursor walk that fills the answer. */
    method Collect(start: nat, limit: int, ghost rest: seq<Event>) returns (out: seq<Event>)
      requires start <= |bucket| && RowsAre(bucket, start, rest)
      ensures out == FirstN(rest, limit)
    {
      out := [];
      var i := start;
      while i < |bucket|
        invariant start <= i <= |bucket|
        invariant out == rest[..i - start]
        invariant limit > 0 ==> |out| < limit
      {
        out := out + [bucket[i].payload];
        i := i + 1;
        if limit > 0 && |out| >= limit {
          break;
        }
      }
    }

    /**
      The first limit (or all) events strictly later than since, by time and
      then by write order. Times before the epoch count as the epoch, which is
      harmless exactly under ClampHarmless.
     */
    method Query(since: int, limit: int) returns (out: seq<Event>)
      requires Valid() && since < NANO_LIMIT
      ensures forall l | Lists(l, writes) :: out == FirstN(After(l, since), limit)
      ensures exists idx :: Answers(out, idx, writes, since, limit)
      ensures ClampHarmless(writes, since) ==> RightTimes(out, since)
      ensures limit <= 0 && RightTimes(out, since) ==> ClampHarmless(writes, since)
    {
      TrueTimesIff(listing, writes, since);
      var start := FirstAfter(since);
      LaterRows(bucket, listing, since, start);
      out := Collect(start, limit, After(listing, since));
      ghost var idx := FirstAreAnswers(listing, writes, since, limit);
      forall l | Lists(l, writes)
        ensures out == FirstN(After(l, since), limit)
      {
        ListingUnique(l, listing);
      }
    }
  }
}
