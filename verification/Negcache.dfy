/**
  The negative cache of internal/feature/negcache/negcache.go: consecutive
  failures per (tenant, onion) pair, and a blacklist whose entries expire and
  are deleted lazily or by a sweep.

  The ghost history never forgets anything; Valid says that the two maps of the
  program always answer as a tally over the whole history would.
 */
module Negcache {
  import opened Keys
  import opened Orders
  import opened Sorting

  datatype Deadline = Never | Until(at: int)

  /** Failures counted since the last success, and the last deadline set. */
  datatype Tally = Tally(count: nat, deadline: Deadline)

  datatype Op =
    | Fail(tenant: string, onion: string, at: int, ttl: int, threshold: int)
    | Succeed(tenant: string, onion: string)
  {
    function Key(): string { PairKey(tenant, onion) }
  }

  predicate Live(t: Tally, now: int) {
    t.deadline.Until? && now < t.deadline.at
  }

  /** What one operation on the pair does to its tally. Nothing is ever deleted. */
  function Apply(t: Tally, op: Op): Tally {
    match op
    case Succeed(_, _) => Tally(0, Never)
    case Fail(_, _, at, ttl, threshold) =>
      if threshold <= 0 || Live(t, at) then t
      else if t.count + 1 >= threshold && ttl > 0 then Tally(t.count + 1, Until(at + ttl))
      else t.(count := t.count + 1)
  }

  function Spec(h: seq<Op>, key: string): Tally {
    if h == [] then Tally(0, Never)
    else
      var before := Spec(h[..|h| - 1], key);
      if h[|h| - 1].Key() == key then Apply(before, h[|h| - 1]) else before
  }

  /** The same tally, reading only the operations of this very pair. */
  function PairSpec(h: seq<Op>, tenant: string, onion: string): Tally {
    if h == [] then Tally(0, Never)
    else
      var before := PairSpec(h[..|h| - 1], tenant, onion);
      var op := h[|h| - 1];
      if op.tenant == tenant && op.onion == onion then Apply(before, op) else before
  }

  /** Tenants that do not clash with this one never affect it. */
  lemma {:induction false} TenantsAreIsolated(h: seq<Op>, tenant: string, onion: string)
    requires forall i | 0 <= i < |h| :: !Clash(h[i].tenant, tenant)
    ensures Spec(h, PairKey(tenant, onion)) == PairSpec(h, tenant, onion)
    decreases h
  {
    if h != [] {
      var op := h[|h| - 1];
      TenantsAreIsolated(h[..|h| - 1], tenant, onion);
      if op.Key() == PairKey(tenant, onion) {
        NoClashInjective(op.tenant, op.onion, tenant, onion);
      }
    }
  }

  /** A single failure of a clashing tenant blacklists a pair of the other that nobody ever used. */
  lemma {:induction false} ClashInterferes(tenant: string, other: string) returns (h: seq<Op>, onion: string)
    requires Clash(tenant, other)
    ensures |h| == 1 && h[0].tenant == other
    ensures Live(Spec(h, PairKey(tenant, onion)), 5) && !Live(PairSpec(h, tenant, onion), 5)
  {
    var used := "";
    if tenant + [NUL] <= other {
      ClashSplits(tenant, other);
      onion := PairKey(other[|tenant| + 1..], "");
      assert PairKey(tenant, onion) == PairKey(other, "");
    } else {
      ClashSplits(other, tenant);
      onion, used := "", PairKey(tenant[|other| + 1..], "");
      assert PairKey(tenant, "") == PairKey(other, used);
    }
    var op := Fail(other, used, 0, 10, 1);
    h := [op];
    assert h[..0] == [];
    assert tenant != other;
  }

  ghost predicate OpsOf(h: seq<Op>, tenants: set<string>) {
    forall i | 0 <= i < |h| :: h[i].tenant in tenants
  }

  /** Every tally of these tenants depends on its own pair alone, whatever the tenants do. */
  ghost predicate Isolated(tenants: set<string>) {
    forall h, tenant, onion | OpsOf(h, tenants) && tenant in tenants ::
      Spec(h, PairKey(tenant, onion)) == PairSpec(h, tenant, onion)
  }

  /** Exactly the sets of tenants without a clash are isolated. */
  lemma {:induction false} IsolatedIff(tenants: set<string>)
    ensures Isolated(tenants) <==> forall a, b | a in tenants && b in tenants :: !Clash(a, b)
  {
    if forall a, b | a in tenants && b in tenants :: !Clash(a, b) {
      forall h, tenant, onion | OpsOf(h, tenants) && tenant in tenants
        ensures Spec(h, PairKey(tenant, onion)) == PairSpec(h, tenant, onion)
      {
        TenantsAreIsolated(h, tenant, onion);
      }
    } else {
      var a, b :| a in tenants && b in tenants && Clash(a, b);
      var h, onion := ClashInterferes(a, b);
      assert OpsOf(h, tenants);
      assert Spec(h, PairKey(a, onion)) != PairSpec(h, a, onion);
    }
  }

  /** Every failure of the key since its last success, counted or not. */
  function FailuresSince(h: seq<Op>, key: string): nat {
    if h == [] then 0
    else
      var before := FailuresSince(h[..|h| - 1], key);
      if h[|h| - 1].Key() != key then before
      else if h[|h| - 1].Succeed? then 0 else before + 1
  }

  lemma {:induction false} CountIsEarned(h: seq<Op>, key: string)
    ensures Spec(h, key).count <= FailuresSince(h, key)
    decreases h
  {
    if h != [] {
      CountIsEarned(h[..|h| - 1], key);
    }
  }

  /** Operation i inserted the blacklist entry that is live at now. */
  predicate Inserted(h: seq<Op>, key: string, now: int, i: nat)
    requires i < |h|
  {
    && h[i].Fail? && h[i].Key() == key
    && 0 < h[i].threshold <= FailuresSince(h[..i + 1], key)
    && h[i].at + h[i].ttl > now
    && forall j | i < j < |h| && h[j].Key() == key :: h[j].Fail?
  }

  /** A blacklisted pair has reached the threshold since its last success, which lies before that failure. */
  lemma {:induction false} BlacklistedReachedThreshold(h: seq<Op>, key: string, now: int) returns (i: nat)
    requires Live(Spec(h, key), now)
    ensures i < |h| && Inserted(h, key, now, i)
    decreases h
  {
    var p, op := h[..|h| - 1], h[|h| - 1];
    var before := Spec(p, key);
    if op.Key() == key && Apply(before, op).deadline != before.deadline {
      i := |h| - 1;
      CountIsEarned(h, key);
      assert h[..i + 1] == h;
    } else {
      i := BlacklistedReachedThreshold(p, key, now);
      assert p[..i + 1] == h[..i + 1];
      assert forall j | i < j < |p| :: h[j] == p[j];
    }
  }

  // ------------------------------------------------------------------
  // When a pair is blacklisted, in terms of the history alone.

  /** No success of the key among the operations i .. n - 1. */
  ghost predicate NoSuccess(h: seq<Op>, key: string, i: nat, n: nat)
    requires n <= |h|
  {
    forall j | i <= j < n && h[j].Key() == key :: h[j].Fail?
  }

  /** After n operations, at time now: a failure since the last success blacklists the pair, and its ttl is not over. */
  ghost predicate BlackAt(h: seq<Op>, key: string, n: nat, now: int)
    requires n <= |h|
    decreases n, 0
  {
    exists i: nat | i < n ::
      h[i].Fail? && Blacklists(h, key, i) && NoSuccess(h, key, i, n) && now < h[i].at + h[i].ttl
  }

  /** Operation i is a failure that counts: the cache is on, and the pair is not blacklisted already. */
  ghost predicate Counts(h: seq<Op>, key: string, i: nat)
    requires i < |h|
    decreases i, 1
  {
    h[i].Fail? && h[i].Key() == key && h[i].threshold > 0 && !BlackAt(h, key, i, h[i].at)
  }

  /** The failures that counted among the first n operations, since the last success. */
  ghost function Tallied(h: seq<Op>, key: string, n: nat): nat
    requires n <= |h|
    decreases n, 0
  {
    if n == 0 then 0
    else if h[n - 1].Key() == key && h[n - 1].Succeed? then 0
    else Tallied(h, key, n - 1) + if Counts(h, key, n - 1) then 1 else 0
  }

  /** With it, the failures that count reach the threshold. */
  ghost predicate Blacklists(h: seq<Op>, key: string, i: nat)
    requires i < |h|
    decreases i, 2
  {
    Counts(h, key, i) && h[i].ttl > 0 && Tallied(h, key, i) + 1 >= h[i].threshold
  }

  lemma {:induction false} BlacklistsMeans(h: seq<Op>, key: string, i: nat)
    requires i < |h| && Blacklists(h, key, i)
    ensures h[i].Fail? && h[i].Key() == key && Counts(h, key, i) && !BlackAt(h, key, i, h[i].at) && h[i].ttl > 0
  {
    assert Counts(h, key, i);
  }

  /** A failure that blacklists does so until its ttl is over; one that does not changes nothing there. */
  lemma {:induction false} BlackAfterFailure(h: seq<Op>, key: string, n: nat, now: int)
    requires n < |h| && h[n].Key() == key && h[n].Fail?
    ensures BlackAt(h, key, n + 1, now) <==>
            if Blacklists(h, key, n) then now < h[n].at + h[n].ttl else BlackAt(h, key, n, now)
  {
    if Blacklists(h, key, n) {
      BlacklistsMeans(h, key, n);
      assert NoSuccess(h, key, n, n + 1);
    }
    if BlackAt(h, key, n, now) {
      var i: nat :| i < n && h[i].Fail? && Blacklists(h, key, i) && NoSuccess(h, key, i, n) && now < h[i].at + h[i].ttl;
      assert NoSuccess(h, key, i, n + 1);
    }
    if BlackAt(h, key, n + 1, now) {
      var i: nat :| i < n + 1 && h[i].Fail? && Blacklists(h, key, i) && NoSuccess(h, key, i, n + 1)
                    && now < h[i].at + h[i].ttl;
      if i < n {
        assert NoSuccess(h, key, i, n);
        // a failure blacklists only when every earlier ttl is over
        assert Blacklists(h, key, n) ==> h[i].at + h[i].ttl <= h[n].at;
      }
    }
  }

  lemma {:induction false} BlackAfterOther(h: seq<Op>, key: string, n: nat, now: int)
    requires n < |h| && h[n].Key() != key
    ensures BlackAt(h, key, n + 1, now) <==> BlackAt(h, key, n, now)
  {
    if BlackAt(h, key, n, now) {
      var i: nat :| i < n && h[i].Fail? && Blacklists(h, key, i) && NoSuccess(h, key, i, n) && now < h[i].at + h[i].ttl;
      assert NoSuccess(h, key, i, n + 1);
    }
    if BlackAt(h, key, n + 1, now) {
      var i: nat :| i < n + 1 && h[i].Fail? && Blacklists(h, key, i) && NoSuccess(h, key, i, n + 1)
                    && now < h[i].at + h[i].ttl;
      BlacklistsMeans(h, key, i);
      assert i < n && NoSuccess(h, key, i, n);
    }
  }

  lemma {:induction false} NotBlackAfterSuccess(h: seq<Op>, key: string, n: nat, now: int)
    requires n < |h| && h[n].Key() == key && h[n].Succeed?
    ensures !BlackAt(h, key, n + 1, now)
  {
    var m := n + 1;
    assert forall i: nat | i < m :: !NoSuccess(h, key, i, m);
  }

  /** The tally says the same: it counts the failures that counted, and is live exactly when the pair is blacklisted. */
  ghost predicate Tells(t: Tally, h: seq<Op>, key: string, n: nat)
    requires n <= |h|
  {
    t.count == Tallied(h, key, n) && forall now :: Live(t, now) <==> BlackAt(h, key, n, now)
  }

  lemma {:induction false} TellsNext(t: Tally, h: seq<Op>, key: string, n: nat)
    requires n < |h| && Tells(t, h, key, n)
    ensures Tells(if h[n].Key() == key then Apply(t, h[n]) else t, h, key, n + 1)
  {
    var t' := if h[n].Key() == key then Apply(t, h[n]) else t;
    forall now
      ensures Live(t', now) <==> BlackAt(h, key, n + 1, now)
    {
      assert Live(t, now) <==> BlackAt(h, key, n, now);
      if h[n].Key() != key {
        BlackAfterOther(h, key, n, now);
      } else if h[n].Succeed? {
        NotBlackAfterSuccess(h, key, n, now);
      } else {
        assert Live(t, h[n].at) <==> BlackAt(h, key, n, h[n].at);
        assert Counts(h, key, n) <==> h[n].threshold > 0 && !Live(t, h[n].at);
        BlackAfterFailure(h, key, n, now);
      }
    }
    CountNext(t, h, key, n);
  }

  lemma {:induction false} CountNext(t: Tally, h: seq<Op>, key: string, n: nat)
    requires n < |h| && Tells(t, h, key, n)
    ensures (if h[n].Key() == key then Apply(t, h[n]) else t).count == Tallied(h, key, n + 1)
  {
    if h[n].Fail? && h[n].Key() == key {
      assert Live(t, h[n].at) <==> BlackAt(h, key, n, h[n].at);
      assert Counts(h, key, n) <==> h[n].threshold > 0 && !Live(t, h[n].at);
    } else {
      assert !Counts(h, key, n);
    }
  }

  lemma {:induction false} SpecTells(h: seq<Op>, key: string, n: nat)
    requires n <= |h|
    ensures Tells(Spec(h[..n], key), h, key, n)
    decreases n
  {
    if n > 0 {
      SpecTells(h, key, n - 1);
      assert h[..n][..n - 1] == h[..n - 1];
      TellsNext(Spec(h[..n - 1], key), h, key, n - 1);
    }
  }

  /** A pair is reported exactly when it is blacklisted. */
  lemma {:induction false} LiveIff(h: seq<Op>, key: string, now: int)
    ensures Live(Spec(h, key), now) <==> BlackAt(h, key, |h|, now)
  {
    SpecTells(h, key, |h|);
    assert h[..|h|] == h;
  }

  /** A failure of a pair that is not blacklisted does blacklist it as soon as enough have counted, and from then on. */
  lemma {:induction false} FailureBlacklists(h: seq<Op>, op: Op, now: int)
    requires op.Fail? && op.threshold > 0 && op.ttl > 0 && !BlackAt(h, op.Key(), |h|, op.at)
    requires Tallied(h, op.Key(), |h|) + 1 >= op.threshold && now < op.at + op.ttl
    ensures Live(Spec(h + [op], op.Key()), now)
  {
    SpecTells(h, op.Key(), |h|);
    assert h[..|h|] == h;
    assert !Live(Spec(h, op.Key()), op.at);
    SpecAppend(h, op, op.Key());
  }

  // ------------------------------------------------------------------
  // The coupling.

  ghost predicate Couples(counters: map<string, nat>, blacklist: map<string, int>, key: string, t: Tally, clock: int) {
    && t.count == (if key in counters then counters[key] else 0)
    && (if key in blacklist then t.deadline == Until(blacklist[key]) else !Live(t, clock))
  }

  ghost predicate AllCouple(counters: map<string, nat>, blacklist: map<string, int>, h: seq<Op>, clock: int) {
    forall key :: Couples(counters, blacklist, key, Spec(h, key), clock)
  }

  lemma {:induction false} SpecAppend(h: seq<Op>, op: Op, key: string)
    ensures Spec(h + [op], key) == if op.Key() == key then Apply(Spec(h, key), op) else Spec(h, key)
  {
    assert (h + [op])[..|h|] == h;
  }

  /** An operation that handles its own key right and leaves the rest keeps the coupling. */
  lemma {:induction false} OpKeepsCoupling(
    counters: map<string, nat>, blacklist: map<string, int>, h: seq<Op>, clock: int,
    counters': map<string, nat>, blacklist': map<string, int>, op: Op, now: int)
    requires AllCouple(counters, blacklist, h, clock) && clock <= now
    requires Couples(counters', blacklist', op.Key(), Apply(Spec(h, op.Key()), op), now)
    requires counters' - {op.Key()} == counters - {op.Key()}
    requires blacklist' - {op.Key()} == blacklist - {op.Key()}
    ensures AllCouple(counters', blacklist', h + [op], now)
  {
    forall key
      ensures Couples(counters', blacklist', key, Spec(h + [op], key), now)
    {
      SpecAppend(h, op, key);
      if key != op.Key() {
        assert Couples(counters, blacklist, key, Spec(h, key), clock);
        assert key in counters <==> key in counters - {op.Key()};
        assert key in counters' <==> key in counters' - {op.Key()};
        assert key in blacklist <==> key in blacklist - {op.Key()};
        assert key in blacklist' <==> key in blacklist' - {op.Key()};
        assert key in counters ==> counters[key] == (counters - {op.Key()})[key];
        assert key in counters' ==> counters'[key] == (counters' - {op.Key()})[key];
        assert key in blacklist ==> blacklist[key] == (blacklist - {op.Key()})[key];
        assert key in blacklist' ==> blacklist'[key] == (blacklist' - {op.Key()})[key];
      }
    }
  }

  /** Deleting an expired entry is never observable. */
  lemma {:induction false} ExpiryKeepsCoupling(
    counters: map<string, nat>, blacklist: map<string, int>, h: seq<Op>, clock: int, key: string, now: int)
    requires AllCouple(counters, blacklist, h, clock) && clock <= now
    ensures AllCouple(counters, blacklist, h, now)
    ensures key in blacklist && blacklist[key] <= now ==> AllCouple(counters, blacklist - {key}, h, now)
  {
    forall k
      ensures Couples(counters, blacklist, k, Spec(h, k), now)
    {
      assert Couples(counters, blacklist, k, Spec(h, k), clock);
    }
    if key in blacklist && blacklist[key] <= now {
      forall k
        ensures Couples(counters, blacklist - {key}, k, Spec(h, k), now)
      {
        assert Couples(counters, blacklist, k, Spec(h, k), clock);
      }
    }
  }

  // ------------------------------------------------------------------
  // The listing.

  datatype Entry = Entry(tenant: string, onion: string, expiresAt: int)

  predicate EntryBelow(a: Entry, b: Entry) {
    if a.tenant != b.tenant then StrBelow(a.tenant, b.tenant) else StrBelow(a.onion, b.onion)
  }

  ghost predicate StrictlySorted(es: seq<Entry>) {
    forall i, j | 0 <= i < j < |es| :: EntryBelow(es[i], es[j])
  }

  lemma {:induction false} EntryBelowTransitive(a: Entry, b: Entry, c: Entry)
    requires EntryBelow(a, b) && EntryBelow(b, c)
    ensures EntryBelow(a, c)
  {
    if a.tenant == b.tenant && b.tenant == c.tenant {
      BelowTransitive(Codes(a.onion), Codes(b.onion), Codes(c.onion));
    } else if a.tenant != b.tenant && b.tenant != c.tenant {
      BelowTransitive(Codes(a.tenant), Codes(b.tenant), Codes(c.tenant));
      BelowIrreflexive(Codes(a.tenant));
    }
  }

  /** The comparison of the final sort. */
  predicate EntryLe(a: Entry, b: Entry) { !EntryBelow(b, a) }

  lemma {:induction false} EntryTotal(a: Entry, b: Entry)
    requires EntryLe(a, b) && (a.tenant != b.tenant || a.onion != b.onion)
    ensures EntryBelow(a, b)
  {
    StrTotal(a.tenant, b.tenant);
    StrTotal(a.onion, b.onion);
  }

  /** One step of the sort: a new pair goes to its place. */
  method InsertSorted(es: seq<Entry>, e: Entry) returns (r: seq<Entry>)
    requires StrictlySorted(es)
    requires forall x | x in es :: x.tenant != e.tenant || x.onion != e.onion
    ensures StrictlySorted(r)
    ensures forall x :: x in r <==> x in es || x == e
  {
    r := Insert(EntryLe, e, es);
    InsertHas(EntryLe, e, es);
    ghost var k := InsertPlace(EntryLe, e, es);
    if k < |es| {
      EntryTotal(e, es[k]);
      forall j | k < j < |es|
        ensures EntryBelow(e, es[j])
      {
        EntryBelowTransitive(e, es[k], es[j]);
      }
    }
  }

  // ------------------------------------------------------------------
  // The program.

  class Cache {
    var counters: map<string, nat>
    var blacklist: map<string, int>
    var ttl: int
    var threshold: int
    ghost var history: seq<Op>
    ghost var clock: int

    ghost predicate Valid()
      reads this
    {
      && AllCouple(counters, blacklist, history, clock)
      && forall k | k in blacklist :: NUL in k
    }

    constructor (defaultTTL: int, failureThreshold: int, ghost start: int)
      ensures Valid() && history == [] && clock == start
      ensures ttl == defaultTTL && threshold == failureThreshold
    {
      counters, blacklist := map[], map[];
      ttl, threshold := defaultTTL, failureThreshold;
      history, clock := [], start;
    }

    method Configure(defaultTTL: int, failureThreshold: int)
      requires Valid()
      modifies this`ttl, this`threshold
      ensures Valid() && ttl == defaultTTL && threshold == failureThreshold
    {
      ttl, threshold := defaultTTL, failureThreshold;
    }

    /** The answer depends on the history alone, whatever has been deleted so far. */
    method IsBlacklisted(tenant: string, onion: string, now: int) returns (r: bool)
      requires Valid() && clock <= now
      modifies this`blacklist, this`clock
      ensures Valid() && clock == now
      ensures r == Live(Spec(history, PairKey(tenant, onion)), now)
      ensures r <==> BlackAt(history, PairKey(tenant, onion), |history|, now)
      ensures !r ==> PairKey(tenant, onion) !in blacklist
      ensures r ==> blacklist == old(blacklist)
      ensures blacklist == old(blacklist) || blacklist == old(blacklist) - {PairKey(tenant, onion)}
    {
      var key := PairKey(tenant, onion);
      LiveIff(history, key, now);
      assert Couples(counters, blacklist, key, Spec(history, key), clock);
      ExpiryKeepsCoupling(counters, blacklist, history, clock, key, now);
      clock := now;
      if key !in blacklist {
        return false;
      }
      if now < blacklist[key] {
        return true;
      }
      blacklist := blacklist - {key};
      return false;
    }

    method RecordFailure(tenant: string, onion: string, now: int)
      requires Valid() && clock <= now
      modifies this`counters, this`blacklist, this`history, this`clock
      ensures Valid() && clock == now
      ensures history == old(history) + [Fail(tenant, onion, now, ttl, threshold)]
    {
      ghost var op := Fail(tenant, onion, now, ttl, threshold);
      var key := PairKey(tenant, onion);
      var known := key in blacklist;
      var black := false;
      if threshold > 0 && known {
        black := IsBlacklisted(tenant, onion, now);
      } else {
        ExpiryKeepsCoupling(counters, blacklist, history, clock, key, now);
        clock := now;
      }
      ghost var counters0, blacklist0 := counters, blacklist;
      assert Couples(counters, blacklist, key, Spec(history, key), now);
      if threshold > 0 && !black {
        var n := (if key in counters then counters[key] else 0) + 1;
        counters := counters[key := n];
        if n >= threshold && ttl > 0 && key !in blacklist {
          blacklist := blacklist[key := now + ttl];
          assert key[|tenant|] == NUL;
        }
      }
      OpKeepsCoupling(counters0, blacklist0, history, now, counters, blacklist, op, now);
      history := history + [op];
    }

    method RecordSuccess(tenant: string, onion: string)
      requires Valid()
      modifies this`counters, this`blacklist, this`history
      ensures Valid()
      ensures history == old(history) + [Succeed(tenant, onion)]
    {
      ghost var op := Succeed(tenant, onion);
      var key := PairKey(tenant, onion);
      if key in counters {
        counters := counters[key := 0];
      }
      blacklist := blacklist - {key};
      OpKeepsCoupling(old(counters), old(blacklist), history, clock, counters, blacklist, op, clock);
      history := history + [op];
    }

    method Sweep(now: int) returns (removed: nat)
      requires Valid() && clock <= now
      modifies this`blacklist, this`clock
      ensures Valid() && clock == now
      ensures blacklist == map k | k in old(blacklist) && now < old(blacklist)[k] :: old(blacklist)[k]
      ensures removed == |old(blacklist)| - |blacklist|
    {
      removed := 0;
      var todo := blacklist.Keys;
      while todo != {}
        invariant Valid() && clock <= now
        invariant todo <= blacklist.Keys <= old(blacklist).Keys
        invariant forall k | k in blacklist :: blacklist[k] == old(blacklist)[k]
        invariant forall k | k in old(blacklist) && k !in todo :: k in blacklist <==> now < old(blacklist)[k]
        invariant removed == |old(blacklist)| - |blacklist|
        decreases todo
      {
        var k :| k in todo;
        todo := todo - {k};
        ExpiryKeepsCoupling(counters, blacklist, history, clock, k, now);
        clock := now;
        if blacklist[k] <= now {
          assert |blacklist - {k}| == |blacklist| - 1 by {
            assert (blacklist - {k}).Keys == blacklist.Keys - {k};
          }
          blacklist := blacklist - {k};
          removed := removed + 1;
        }
      }
      ExpiryKeepsCoupling(counters, blacklist, history, clock, "", now);
      clock := now;
    }

    /** The live pairs of the whole history, each once, in (tenant, onion) order. */
    method Snapshot(now: int) returns (out: seq<Entry>)
      requires Valid() && clock <= now
      ensures StrictlySorted(out)
      ensures forall e :: e in out <==>
                NUL !in e.tenant
                && Spec(history, PairKey(e.tenant, e.onion)).deadline == Until(e.expiresAt)
                && now < e.expiresAt
    {
      out := [];
      var todo := blacklist.Keys;
      while todo != {}
        invariant todo <= blacklist.Keys
        invariant StrictlySorted(out)
        invariant forall e :: e in out <==>
                    && NUL !in e.tenant && PairKey(e.tenant, e.onion) in blacklist.Keys - todo
                    && blacklist[PairKey(e.tenant, e.onion)] == e.expiresAt && now < e.expiresAt
        decreases todo
      {
        var k :| k in todo;
        ghost var was := todo;
        todo := todo - {k};
        var parts := SplitKey(k);
        if parts.Parts? && now < blacklist[k] {
          var e := Entry(parts.first, parts.second, blacklist[k]);
          out := InsertSorted(out, e);
          forall x
            ensures x in out <==>
                      && NUL !in x.tenant && PairKey(x.tenant, x.onion) in blacklist.Keys - todo
                      && blacklist[PairKey(x.tenant, x.onion)] == x.expiresAt && now < x.expiresAt
          {
            if NUL !in x.tenant && PairKey(x.tenant, x.onion) == k {
              PairKeyInjective(x.tenant, x.onion, e.tenant, e.onion);
            }
          }
        }
      }
      forall e
        ensures e in out <==>
                  NUL !in e.tenant
                  && Spec(history, PairKey(e.tenant, e.onion)).deadline == Until(e.expiresAt)
                  && now < e.expiresAt
      {
        var k := PairKey(e.tenant, e.onion);
        assert Couples(counters, blacklist, k, Spec(history, k), clock);
      }
    }
  }
}
