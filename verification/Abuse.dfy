/**
  The abuse-report limiter of internal/feature/abuse/abuse.go. Per (tenant, IP
  hash) it keeps the accepted timestamps of the last hour, dropping only a
  prefix of the list on each call.
 */
module Abuse {
  import opened Keys

  const WINDOW: int := 3_600_000_000_000
  const SECOND: int := 1_000_000_000

  datatype Answer = Answer(hist: seq<int>, allowed: bool, retryAfter: int)

  function Trim(hist: seq<int>, cutoff: int): seq<int> {
    if hist != [] && hist[0] < cutoff then Trim(hist[1..], cutoff) else hist
  }

  /** One attempt against the stored timestamps of its key. */
  function Attempt(hist: seq<int>, limit: int, now: int): Answer {
    if limit <= 0 then Answer(hist, true, 0)
    else
      var kept := Trim(hist, now - WINDOW);
      if |kept| >= limit then
        var retry := WINDOW - (now - kept[0]);
        Answer(kept, false, if retry < SECOND then SECOND else retry)
      else Answer(kept + [now], true, 0)
  }

  ghost predicate Ascending(ts: seq<int>, clock: int) {
    && (forall i, j | 0 <= i <= j < |ts| :: ts[i] <= ts[j])
    && (forall i | 0 <= i < |ts| :: ts[i] <= clock)
  }

  /** How many of ts lie in the closed hour that starts at t. */
  function InHour(ts: seq<int>, t: int): nat {
    if ts == [] then 0
    else InHour(ts[..|ts| - 1], t) + if t <= ts[|ts| - 1] <= t + WINDOW then 1 else 0
  }

  /** Every closed one-hour window holds at most cap of ts. */
  ghost predicate Bounded(ts: seq<int>, cap: int) {
    forall t :: InHour(ts, t) <= cap
  }

  // ------------------------------------------------------------------
  // Trimming.

  lemma {:induction false} TrimSuffix(hist: seq<int>, cutoff: int, clock: int) returns (d: nat)
    requires Ascending(hist, clock)
    ensures d <= |hist| && Trim(hist, cutoff) == hist[d..]
    ensures forall i | 0 <= i < |hist| :: hist[i] < cutoff <==> i < d
    decreases hist
  {
    d := 0;
    if hist != [] && hist[0] < cutoff {
      var d' := TrimSuffix(hist[1..], cutoff, clock);
      d := d' + 1;
      forall i | 0 <= i < |hist|
        ensures hist[i] < cutoff <==> i < d
      {
        assert i > 0 ==> hist[i] == hist[1..][i - 1];
      }
    } else if hist != [] {
      assert forall i | 0 <= i < |hist| :: hist[0] <= hist[i];
    }
  }

  lemma {:induction false} TrimShorter(hist: seq<int>, cutoff: int)
    ensures |Trim(hist, cutoff)| <= |hist|
    decreases hist
  {
    if hist != [] && hist[0] < cutoff {
      TrimShorter(hist[1..], cutoff);
    }
  }

  lemma {:induction false} TrimTwice(hist: seq<int>, c1: int, c2: int)
    requires c1 <= c2
    ensures Trim(Trim(hist, c1), c2) == Trim(hist, c2)
    decreases hist
  {
    if hist != [] && hist[0] < c1 {
      TrimTwice(hist[1..], c1, c2);
    }
  }

  // ------------------------------------------------------------------
  // The bound.

  /** kept is what the program still has of all: only entries older than the window are gone. */
  ghost predicate Covers(kept: seq<int>, all: seq<int>, clock: int) {
    && Ascending(all, clock)
    && |kept| <= |all| && all[|all| - |kept|..] == kept
    && forall i | 0 <= i < |all| - |kept| :: all[i] < clock - WINDOW
  }

  lemma {:induction false} InHourAtMost(ts: seq<int>, d: nat, t: int)
    requires d <= |ts|
    requires forall i | 0 <= i < d :: ts[i] < t
    ensures InHour(ts, t) <= |ts| - d
    decreases |ts|
  {
    if |ts| > d {
      InHourAtMost(ts[..|ts| - 1], d, t);
    } else if |ts| > 0 {
      InHourAtMost(ts[..|ts| - 1], d - 1, t);
    }
  }

  lemma {:induction false} CoversAscending(kept: seq<int>, all: seq<int>, clock: int)
    requires Covers(kept, all, clock)
    ensures Ascending(kept, clock)
  {
    var off := |all| - |kept|;
    assert forall i | 0 <= i < |kept| :: kept[i] == all[off + i];
  }

  lemma {:induction false} TrimCovers(kept: seq<int>, all: seq<int>, clock: int, now: int)
    requires Covers(kept, all, clock) && clock <= now
    ensures Covers(Trim(kept, now - WINDOW), all, now)
  {
    CoversAscending(kept, all, clock);
    var off := |all| - |kept|;
    var d := TrimSuffix(kept, now - WINDOW, clock);
    assert all[off + d..] == kept[d..];
    forall i | 0 <= i < off + d
      ensures all[i] < now - WINDOW
    {
      if i >= off {
        assert all[i] == kept[i - off];
      }
    }
  }

  lemma {:induction false} AppendBounded(kept: seq<int>, all: seq<int>, cap: int, now: int)
    requires Covers(kept, all, now) && Bounded(all, cap) && |kept| < cap
    ensures Covers(kept + [now], all + [now], now) && Bounded(all + [now], cap)
  {
    var all' := all + [now];
    var d := |all| - |kept|;
    assert all'[d..] == kept + [now] && all'[..|all|] == all;
    forall t
      ensures InHour(all', t) <= cap
    {
      if t <= now <= t + WINDOW {
        InHourAtMost(all', d, t);
      } else {
        assert InHour(all, t) <= cap;
      }
    }
  }

  /** What the program keeps of a key, and everything it has accepted for it under a positive limit. */
  datatype Track = Track(hist: seq<int>, accepted: seq<int>)

  ghost predicate Sound(k: Track, cap: int, clock: int) {
    Covers(k.hist, k.accepted, clock) && Bounded(k.accepted, cap)
  }

  function Step(k: Track, limit: int, now: int): Track {
    var a := Attempt(k.hist, limit, now);
    Track(a.hist, if limit > 0 && a.allowed then k.accepted + [now] else k.accepted)
  }

  lemma {:induction false} SoundLater(k: Track, cap: int, clock: int, now: int)
    requires Sound(k, cap, clock) && clock <= now
    ensures Sound(k, cap, now)
  {}

  /** One attempt with a limit up to the cap keeps every window bounded. */
  lemma {:induction false} StepKeepsSound(k: Track, cap: int, clock: int, limit: int, now: int)
    requires Sound(k, cap, clock) && limit <= cap && clock <= now
    ensures Sound(Step(k, limit, now), cap, now)
  {
    if limit <= 0 {
      SoundLater(k, cap, clock, now);
    } else {
      TrimCovers(k.hist, k.accepted, clock, now);
      var trimmed := Trim(k.hist, now - WINDOW);
      if |trimmed| < limit {
        AppendBounded(trimmed, k.accepted, cap, now);
      }
    }
  }

  // ------------------------------------------------------------------
  // The verdict, in terms of what was accepted.

  lemma {:induction false} InHourExactly(ts: seq<int>, d: nat, t: int)
    requires d <= |ts|
    requires (forall i | 0 <= i < d :: ts[i] < t) && (forall i | d <= i < |ts| :: t <= ts[i] <= t + WINDOW)
    ensures InHour(ts, t) == |ts| - d
    decreases |ts|
  {
    if |ts| > d {
      InHourExactly(ts[..|ts| - 1], d, t);
    } else if |ts| > 0 {
      InHourExactly(ts[..|ts| - 1], d - 1, t);
    }
  }

  /** The delay until the oldest report of the last hour is an hour old, but no less than a second. */
  ghost predicate DelayFrom(ts: seq<int>, now: int, delay: int) {
    exists x | x in ts ::
      && x >= now - 3_600_000_000_000 && (forall y | y in ts && y >= now - 3_600_000_000_000 :: x <= y)
      && delay == if x + 3_600_000_000_000 - now < 1_000_000_000 then 1_000_000_000 else x + 3_600_000_000_000 - now
  }

  /** From d on, ts holds exactly the reports of the last hour. */
  lemma {:induction false} LastHour(k: Track, clock: int, now: int) returns (d: nat)
    requires Covers(k.hist, k.accepted, clock) && clock <= now
    ensures d <= |k.accepted| && Trim(k.hist, now - WINDOW) == k.accepted[d..]
    ensures (forall i | 0 <= i < d :: k.accepted[i] < now - WINDOW)
    ensures (forall i | d <= i < |k.accepted| :: now - WINDOW <= k.accepted[i] <= now)
  {
    TrimCovers(k.hist, k.accepted, clock, now);
    CoversAscending(k.hist, k.accepted, clock);
    var kept := Trim(k.hist, now - WINDOW);
    d := |k.accepted| - |kept|;
    var m := TrimSuffix(k.hist, now - WINDOW, clock);
    forall i | d <= i < |k.accepted|
      ensures now - WINDOW <= k.accepted[i] <= now
    {
      assert k.accepted[d..][i - d] == kept[i - d] == k.hist[m + (i - d)];
    }
  }

  lemma {:induction false} DelayOf(ts: seq<int>, d: nat, now: int)
    requires d < |ts| && Ascending(ts, now)
    requires (forall i | 0 <= i < d :: ts[i] < now - WINDOW) && ts[d] >= now - WINDOW
    ensures DelayFrom(ts, now, if WINDOW - (now - ts[d]) < SECOND then SECOND else WINDOW - (now - ts[d]))
  {
    forall y | y in ts && y >= now - 3_600_000_000_000
      ensures ts[d] <= y
    {
      var i :| 0 <= i < |ts| && ts[i] == y;
      assert i >= d;
    }
    assert ts[d] in ts;
  }

  /**
    A report is accepted exactly when fewer than limit were accepted in the hour
    before it, and a refused one is told how long that will last.
   */
  lemma {:induction false} VerdictIs(k: Track, clock: int, limit: int, now: int)
    requires Covers(k.hist, k.accepted, clock) && clock <= now && limit > 0
    ensures var a := Attempt(k.hist, limit, now);
            && (a.allowed <==> InHour(k.accepted, now - 3_600_000_000_000) < limit)
            && (!a.allowed ==> DelayFrom(k.accepted, now, a.retryAfter))
  {
    var d := LastHour(k, clock, now);
    InHourExactly(k.accepted, d, now - WINDOW);
    if !Attempt(k.hist, limit, now).allowed {
      DelayOf(k.accepted, d, now);
      assert k.accepted[d..][0] == k.accepted[d];
    }
  }

  // ------------------------------------------------------------------
  // Whole runs against one key with a fixed limit.

  /** The state of the key after the first k attempts. */
  function TrackAt(times: seq<int>, limit: int, k: nat): Track
    requires k <= |times|
  {
    if k == 0 then Track([], []) else Step(TrackAt(times, limit, k - 1), limit, times[k - 1])
  }

  function AnswerAt(times: seq<int>, limit: int, k: nat): Answer
    requires k < |times|
  {
    Attempt(TrackAt(times, limit, k).hist, limit, times[k])
  }

  /** The times of the accepted reports among the first k attempts. */
  function AcceptedAt(times: seq<int>, limit: int, k: nat): seq<int>
    requires k <= |times|
  {
    if k == 0 then []
    else
      var before := AcceptedAt(times, limit, k - 1);
      if AnswerAt(times, limit, k - 1).allowed then before + [times[k - 1]] else before
  }

  ghost predicate Monotone(times: seq<int>) {
    forall i, j | 0 <= i <= j < |times| :: times[i] <= times[j]
  }

  function ClockAt(times: seq<int>, k: nat): int
    requires k <= |times|
  {
    if |times| == 0 then 0 else times[if k == 0 then 0 else k - 1]
  }

  lemma {:induction false} RunSound(times: seq<int>, limit: int, cap: int, k: nat)
    requires Monotone(times) && k <= |times| && 0 < limit <= cap
    ensures Sound(TrackAt(times, limit, k), cap, ClockAt(times, k))
    decreases k
  {
    if k == 0 {
      assert forall t :: InHour([], t) == 0;
    } else {
      RunSound(times, limit, cap, k - 1);
      StepKeepsSound(TrackAt(times, limit, k - 1), cap, ClockAt(times, k - 1), limit, times[k - 1]);
    }
  }

  lemma {:induction false} RunTracksAccepted(times: seq<int>, limit: int, k: nat)
    requires k <= |times| && 0 < limit
    ensures TrackAt(times, limit, k).accepted == AcceptedAt(times, limit, k)
    ensures |TrackAt(times, limit, k).hist| <= limit
    decreases k
  {
    if k > 0 {
      RunTracksAccepted(times, limit, k - 1);
      TrimShorter(TrackAt(times, limit, k - 1).hist, times[k - 1] - WINDOW);
    }
  }

  function Burst(n: nat): seq<int> { seq(n, i => 0) }

  /** A burst at one instant is accepted up to the limit, and without end when the limit is not positive. */
  lemma {:induction false} BurstAccepted(n: nat, limit: int, k: nat)
    requires k <= n && (limit <= 0 || k <= limit)
    ensures AcceptedAt(Burst(n), limit, k) == Burst(k)
    ensures limit > 0 ==> TrackAt(Burst(n), limit, k).hist == Burst(k)
    decreases k
  {
    if k > 0 {
      BurstAccepted(n, limit, k - 1);
      assert Burst(k - 1) + [0] == Burst(k);
      assert Trim(Burst(k - 1), 0 - WINDOW) == Burst(k - 1);
    }
  }

  lemma {:induction false} BurstCount(n: nat)
    ensures InHour(Burst(n), 0) == n
    decreases n
  {
    if n > 0 {
      assert Burst(n)[..n - 1] == Burst(n - 1);
      BurstCount(n - 1);
    }
  }

  /**
    A configured limit keeps every closed one-hour window of every run at or
    below cap exactly when it is positive and not above cap. A limit of zero or
    less switches the limiter off.
   */
  lemma {:induction false} LimitIsSafeIff(limit: int, cap: nat)
    ensures (forall times | Monotone(times) :: Bounded(AcceptedAt(times, limit, |times|), cap))
            <==> 0 < limit <= cap
  {
    if 0 < limit <= cap {
      forall times | Monotone(times)
        ensures Bounded(AcceptedAt(times, limit, |times|), cap)
      {
        RunSound(times, limit, cap, |times|);
        RunTracksAccepted(times, limit, |times|);
      }
    } else {
      var times := Burst(cap + 1);
      BurstAccepted(cap + 1, limit, cap + 1);
      BurstCount(cap + 1);
      assert InHour(AcceptedAt(times, limit, |times|), 0) > cap;
      assert Monotone(times) && !Bounded(AcceptedAt(times, limit, |times|), cap);
    }
  }

  lemma {:induction false} RefusalsOnlyTrim(times: seq<int>, limit: int, i: nat, k: nat)
    requires Monotone(times) && limit > 0 && i < k <= |times|
    requires forall j: nat | i <= j < k :: !AnswerAt(times, limit, j).allowed
    ensures TrackAt(times, limit, k).hist == Trim(TrackAt(times, limit, i).hist, times[k - 1] - WINDOW)
    decreases k
  {
    assert !AnswerAt(times, limit, k - 1).allowed;
    if i < k - 1 {
      RefusalsOnlyTrim(times, limit, i, k - 1);
      TrimTwice(TrackAt(times, limit, i).hist, times[k - 2] - WINDOW, times[k - 1] - WINDOW);
    }
  }

  /** The announced delay is when the oldest stored report leaves the window. */
  lemma {:induction false} OldestExpires(hist: seq<int>, clock: int, limit: int, now: int, later: int)
    requires Ascending(hist, clock) && 0 < limit && |hist| <= limit && now <= later
    requires !Attempt(hist, limit, now).allowed && later > now + Attempt(hist, limit, now).retryAfter
    ensures |Trim(hist, later - WINDOW)| < limit
  {
    var d := TrimSuffix(hist, now - WINDOW, clock);
    var d' := TrimSuffix(hist, later - WINDOW, clock);
    assert hist[d..][0] == hist[d];
  }

  /**
    Retry-After is enough: after a refusal, an attempt strictly later than the
    announced delay is accepted unless another report was accepted in between.
   */
  lemma {:induction false} RetryAfterHonoured(times: seq<int>, limit: int, i: nat, j: nat)
    requires Monotone(times) && limit > 0 && i < j < |times|
    requires forall k: nat | i <= k < j :: !AnswerAt(times, limit, k).allowed
    requires times[j] > times[i] + AnswerAt(times, limit, i).retryAfter
    ensures AnswerAt(times, limit, j).allowed
  {
    var hist, clock := TrackAt(times, limit, i).hist, ClockAt(times, i);
    RunSound(times, limit, limit, i);
    RunTracksAccepted(times, limit, i);
    CoversAscending(hist, TrackAt(times, limit, i).accepted, clock);
    assert !AnswerAt(times, limit, i).allowed;
    OldestExpires(hist, clock, limit, times[i], times[j]);
    RefusalsOnlyTrim(times, limit, i, j);
    TrimTwice(hist, times[j - 1] - WINDOW, times[j] - WINDOW);
  }

  // ------------------------------------------------------------------
  // The program.

  function At(m: map<string, seq<int>>, key: string): seq<int> {
    if key in m then m[key] else []
  }

  function TrackOf(windows: map<string, seq<int>>, accepted: map<string, seq<int>>, key: string): Track {
    Track(At(windows, key), At(accepted, key))
  }

  ghost predicate AllSound(windows: map<string, seq<int>>, accepted: map<string, seq<int>>, cap: int, clock: int) {
    forall key :: Sound(TrackOf(windows, accepted, key), cap, clock)
  }

  /** A call that makes one Step for its key and touches no other keeps every key sound. */
  lemma {:induction false} CallKeepsAllSound(
    windows: map<string, seq<int>>, accepted: map<string, seq<int>>,
    windows': map<string, seq<int>>, accepted': map<string, seq<int>>,
    cap: int, clock: int, key: string, limit: int, now: int)
    requires AllSound(windows, accepted, cap, clock) && clock <= now && limit <= cap
    requires TrackOf(windows', accepted', key) == Step(TrackOf(windows, accepted, key), limit, now)
    requires forall k | k != key :: TrackOf(windows', accepted', k) == TrackOf(windows, accepted, k)
    ensures AllSound(windows', accepted', cap, now)
  {
    forall k
      ensures Sound(TrackOf(windows', accepted', k), cap, now)
    {
      if k == key {
        StepKeepsSound(TrackOf(windows, accepted, k), cap, clock, limit, now);
      } else {
        SoundLater(TrackOf(windows, accepted, k), cap, clock, now);
      }
    }
  }

  /** The index loop of check. */
  method DropOld(hist: seq<int>, cutoff: int) returns (kept: seq<int>)
    ensures kept == Trim(hist, cutoff)
  {
    var i := 0;
    while i < |hist| && hist[i] < cutoff
      invariant 0 <= i <= |hist|
      invariant Trim(hist, cutoff) == Trim(hist[i..], cutoff)
    {
      assert hist[i..][1..] == hist[i + 1..];
      i := i + 1;
    }
    kept := hist[i..];
  }

  class AbuseLimiter {
    var windows: map<string, seq<int>>
    /** The highest limit any call may pass. */
    ghost const cap: int
    /** Every report accepted under a positive limit, per key, oldest first. */
    ghost var accepted: map<string, seq<int>>
    ghost var clock: int

    ghost predicate Valid()
      reads this
    {
      cap >= 0 && AllSound(windows, accepted, cap, clock)
    }

    constructor (ghost cap: nat, ghost start: int)
      ensures Valid() && this.cap == cap && accepted == map[] && clock == start
    {
      this.cap := cap;
      windows := map[];
      accepted := map[];
      clock := start;
      assert forall t :: InHour([], t) == 0;
    }

    /**
      Whatever positive limits up to cap the calls carry, every key stays within
      cap accepted reports in every closed hour (Valid).
     */
    method Check(tenant: string, ipHash: string, limit: int, now: int) returns (allowed: bool, retryAfter: int)
      requires Valid() && clock <= now && limit <= cap
      modifies this
      ensures Valid() && clock == now
      ensures var key := PairKey(tenant, ipHash);
              && allowed == Attempt(At(old(windows), key), limit, now).allowed
              && retryAfter == Attempt(At(old(windows), key), limit, now).retryAfter
              && TrackOf(windows, accepted, key) == Step(TrackOf(old(windows), old(accepted), key), limit, now)
      ensures forall k | k != PairKey(tenant, ipHash) ::
                TrackOf(windows, accepted, k) == TrackOf(old(windows), old(accepted), k)
      ensures (limit <= 0 ==> allowed) && (allowed ==> retryAfter == 0)
      ensures limit > 0 ==>
                (allowed <==> InHour(At(old(accepted), PairKey(tenant, ipHash)), now - 3_600_000_000_000) < limit)
      ensures limit > 0 && !allowed ==> DelayFrom(At(old(accepted), PairKey(tenant, ipHash)), now, retryAfter)
    {
      var key := PairKey(tenant, ipHash);
      if limit > 0 {
        assert Sound(TrackOf(windows, accepted, key), cap, clock);
        VerdictIs(TrackOf(windows, accepted, key), clock, limit, now);
      }
      if limit <= 0 {
        allowed, retryAfter := true, 0;
      } else {
        var hist := DropOld(At(windows, key), now - WINDOW);
        if |hist| >= limit {
          retryAfter := WINDOW - (now - hist[0]);
          if retryAfter < SECOND {
            retryAfter := SECOND;
          }
          windows := windows[key := hist];
          allowed := false;
        } else {
          windows := windows[key := hist + [now]];
          accepted := accepted[key := At(accepted, key) + [now]];
          allowed, retryAfter := true, 0;
        }
      }
      CallKeepsAllSound(old(windows), old(accepted), windows, accepted, cap, clock, key, limit, now);
      clock := now;
    }
  }
}
