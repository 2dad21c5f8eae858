/**
  The admin lockout of internal/admin/lockout.go: failed gate attempts are
  counted per IP hash over a soft and a hard sliding window, and each window
  that fills up starts a ban.

  The class keeps what the program keeps, a compacted list of timestamps and
  two deadlines per key. Its ghost history keeps every attempt ever made. The
  invariant Valid says that the two always give the same answer.
 */
module Lockout {

  /** Go's zero time, January 1 of year 1, in Unix nanoseconds. */
  const ZERO_TIME: int := -62135596800_000000000

  datatype State = Allowed | SoftBackoff | HardBanned

  datatype Config = Config(
    softThreshold: int, softWindow: int, softBackoff: int,
    hardThreshold: int, hardWindow: int, hardBan: int)

  datatype Entry = Entry(failures: seq<int>, softUntil: int, hardUntil: int)

  const NO_ENTRY := Entry([], ZERO_TIME, ZERO_TIME)

  datatype Attempt = Failure(ip: string, at: int) | Success(ip: string)

  // ------------------------------------------------------------------
  // The specification, over the full history.

  /** Every failure of ip since its last success, oldest first. */
  function Failures(h: seq<Attempt>, ip: string): seq<int> {
    if h == [] then []
    else
      var before := Failures(h[..|h| - 1], ip);
      match h[|h| - 1]
      case Failure(k, at) => if k == ip then before + [at] else before
      case Success(k) => if k == ip then [] else before
  }

  /** The timestamps of fs that are not before from. */
  function Recent(fs: seq<int>, from: int): seq<int> {
    if fs == [] then []
    else
      var r := Recent(fs[..|fs| - 1], from);
      if fs[|fs| - 1] < from then r else r + [fs[|fs| - 1]]
  }

  /** Failure i completed `threshold` failures inside `window`. */
  predicate Completes(fs: seq<int>, i: nat, threshold: int, window: int)
    requires i < |fs|
  {
    threshold > 0 && |Recent(fs[..i + 1], fs[i] - window)| >= threshold
  }

  /** Some failure completed the threshold and the ban it started still runs. */
  ghost predicate Banned(fs: seq<int>, threshold: int, window: int, ban: int, now: int) {
    exists i: nat | i < |fs| :: Completes(fs, i, threshold, window) && fs[i] + ban > now
  }

  function Min(a: int, b: int): int { if a < b then a else b }

  /** The window in which soft failures are counted: never longer than the hard one. */
  function SoftSpan(cfg: Config): int { Min(cfg.softWindow, cfg.hardWindow) }

  ghost function Verdict(cfg: Config, fs: seq<int>, softSpan: int, now: int): State {
    if Banned(fs, cfg.hardThreshold, cfg.hardWindow, cfg.hardBan, now) then HardBanned
    else if Banned(fs, cfg.softThreshold, softSpan, cfg.softBackoff, now) then SoftBackoff
    else Allowed
  }

  // ------------------------------------------------------------------
  // Bans, in terms of the history alone.

  /** Attempt j is a failure of ip, and ip has not succeeded since. */
  ghost predicate Stands(h: seq<Attempt>, ip: string, j: nat) {
    && j < |h| && h[j].Failure? && h[j].ip == ip
    && forall k | j < k < |h| :: h[k] != Success(ip)
  }

  /** The standing failures up to attempt i, from that time on. */
  ghost function StandingSince(h: seq<Attempt>, ip: string, i: nat, from: int): set<nat>
    requires i < |h|
  {
    set j: nat | j <= i && Stands(h, ip, j) && h[j].at >= from
  }

  /** Some standing failure, with those of the window before it, made up a positive threshold; its ban is not over. */
  ghost predicate BanRuns(h: seq<Attempt>, ip: string, threshold: int, window: int, ban: int, now: int) {
    exists i: nat :: Starts(h, ip, i, threshold, window, ban, now)
  }

  /** idx are the standing failures of ip, in order, and fs their times. */
  ghost predicate Lists(idx: seq<nat>, h: seq<Attempt>, ip: string, fs: seq<int>) {
    && |idx| == |fs|
    && (forall k | 0 <= k < |idx| :: Stands(h, ip, idx[k]) && h[idx[k]].at == fs[k])
    && (forall k, m | 0 <= k < m < |idx| :: idx[k] < idx[m])
    && (forall j: nat | Stands(h, ip, j) :: j in idx)
  }

  /** What one more attempt does to a failure that stood, and to itself. */
  lemma {:induction false} StandsNext(h: seq<Attempt>, ip: string, a: Attempt, j: nat)
    ensures Stands(h + [a], ip, j) <==>
            (Stands(h, ip, j) && a != Success(ip)) || (j == |h| && a.Failure? && a.ip == ip)
  {
    var h' := h + [a];
    assert h'[|h|] == a && forall k | 0 <= k < |h| :: h'[k] == h[k];
  }

  lemma {:induction false} ListForeign(idx: seq<nat>, h: seq<Attempt>, ip: string, fs: seq<int>, a: Attempt)
    requires Lists(idx, h, ip, fs) && a.ip != ip
    ensures Lists(idx, h + [a], ip, fs)
  {
    forall j: nat
      ensures Stands(h + [a], ip, j) <==> Stands(h, ip, j)
    {
      StandsNext(h, ip, a, j);
    }
  }

  lemma {:induction false} ListFailure(idx: seq<nat>, h: seq<Attempt>, ip: string, fs: seq<int>, a: Attempt)
    requires Lists(idx, h, ip, fs) && a.Failure? && a.ip == ip
    ensures Lists(idx + [|h|], h + [a], ip, fs + [a.at])
  {
    var h', idx' := h + [a], idx + [|h|];
    forall j: nat
      ensures Stands(h', ip, j) <==> Stands(h, ip, j) || j == |h|
    {
      StandsNext(h, ip, a, j);
    }
    assert idx'[|idx|] == |h|;
    forall j: nat | Stands(h', ip, j)
      ensures j in idx'
    {
      assert j == |h| || j in idx;
    }
  }

  lemma {:induction false} ListNext(idx: seq<nat>, h: seq<Attempt>, ip: string, fs: seq<int>, a: Attempt)
    returns (idx': seq<nat>)
    requires Lists(idx, h, ip, fs)
    ensures a == Success(ip) ==> Lists(idx', h + [a], ip, [])
    ensures a.Failure? && a.ip == ip ==> Lists(idx', h + [a], ip, fs + [a.at])
    ensures a.ip != ip ==> Lists(idx', h + [a], ip, fs)
  {
    if a.ip != ip {
      idx' := idx;
      ListForeign(idx, h, ip, fs, a);
    } else if a.Failure? {
      idx' := idx + [|h|];
      ListFailure(idx, h, ip, fs, a);
    } else {
      idx' := [];
      forall j: nat
        ensures !Stands(h + [a], ip, j)
      {
        StandsNext(h, ip, a, j);
      }
    }
  }

  lemma {:induction false} ListOf(h: seq<Attempt>, ip: string) returns (idx: seq<nat>)
    ensures Lists(idx, h, ip, Failures(h, ip))
    decreases |h|
  {
    if h == [] {
      idx := [];
    } else {
      var n := |h| - 1;
      idx := ListOf(h[..n], ip);
      assert h == h[..n] + [h[n]];
      idx := ListNext(idx, h[..n], ip, Failures(h[..n], ip), h[n]);
    }
  }

  /** The numbers of the first n listed failures, from that time on. */
  ghost function Numbers(idx: seq<nat>, fs: seq<int>, n: nat, from: int): set<nat>
    requires n <= |fs| == |idx|
  {
    if n == 0 then {} else Numbers(idx, fs, n - 1, from) + if fs[n - 1] >= from then {idx[n - 1]} else {}
  }

  lemma {:induction false} NumbersAre(idx: seq<nat>, fs: seq<int>, n: nat, from: int, j: nat)
    requires n <= |fs| == |idx|
    ensures j in Numbers(idx, fs, n, from) <==> exists k: nat | k < n :: fs[k] >= from && idx[k] == j
    decreases n
  {
    if n > 0 {
      NumbersAre(idx, fs, n - 1, from, j);
    }
  }

  lemma {:induction false} NumbersBelow(idx: seq<nat>, fs: seq<int>, n: nat, from: int)
    requires n < |fs| == |idx| && forall k, m | 0 <= k < m < |idx| :: idx[k] < idx[m]
    ensures idx[n] !in Numbers(idx, fs, n, from)
  {
    NumbersAre(idx, fs, n, from, idx[n]);
  }

  /** One more failure adds its number where it is recent. */
  lemma {:induction false} NumbersNext(idx: seq<nat>, fs: seq<int>, n: nat, from: int)
    requires n < |fs| == |idx| && forall k, m | 0 <= k < m < |idx| :: idx[k] < idx[m]
    ensures |Numbers(idx, fs, n + 1, from)| == |Numbers(idx, fs, n, from)| + if fs[n] >= from then 1 else 0
  {
    NumbersBelow(idx, fs, n, from);
    var s := Numbers(idx, fs, n, from);
    assert Numbers(idx, fs, n + 1, from) == if fs[n] >= from then s + {idx[n]} else s;
  }

  lemma {:induction false} RecentNext(fs: seq<int>, n: nat, from: int)
    requires n < |fs|
    ensures |Recent(fs[..n + 1], from)| == |Recent(fs[..n], from)| + if fs[n] >= from then 1 else 0
  {
    RecentAppend(fs[..n], fs[n], from);
    assert fs[..n + 1] == fs[..n] + [fs[n]];
  }

  /** How many of the first n failures are from that time on. */
  ghost function Tally(fs: seq<int>, n: nat, from: int): nat
    requires n <= |fs|
  {
    if n == 0 then 0 else Tally(fs, n - 1, from) + if fs[n - 1] >= from then 1 else 0
  }

  lemma {:induction false} NumbersTally(idx: seq<nat>, fs: seq<int>, n: nat, from: int)
    requires n <= |fs| == |idx| && forall k, m | 0 <= k < m < |idx| :: idx[k] < idx[m]
    ensures |Numbers(idx, fs, n, from)| == Tally(fs, n, from)
    decreases n
  {
    if n > 0 {
      NumbersTally(idx, fs, n - 1, from);
      NumbersNext(idx, fs, n - 1, from);
    }
  }

  lemma {:induction false} RecentTally(fs: seq<int>, n: nat, from: int)
    requires n <= |fs|
    ensures |Recent(fs[..n], from)| == Tally(fs, n, from)
    decreases n
  {
    if n > 0 {
      RecentTally(fs, n - 1, from);
      RecentNext(fs, n - 1, from);
    }
  }

  /** They are as many as the recent ones. */
  lemma {:induction false} NumbersCount(idx: seq<nat>, fs: seq<int>, n: nat, from: int)
    requires n <= |fs| == |idx| && forall k, m | 0 <= k < m < |idx| :: idx[k] < idx[m]
    ensures |Numbers(idx, fs, n, from)| == |Recent(fs[..n], from)|
  {
    NumbersTally(idx, fs, n, from);
    RecentTally(fs, n, from);
  }

  lemma {:induction false} StandingIsNumbered(
    idx: seq<nat>, h: seq<Attempt>, ip: string, fs: seq<int>, k: nat, from: int, j: nat)
    requires Lists(idx, h, ip, fs) && k < |fs|
    ensures j in StandingSince(h, ip, idx[k], from) <==> j in Numbers(idx, fs, k + 1, from)
  {
    NumbersAre(idx, fs, k + 1, from, j);
    if j in idx {
      var m: nat :| m < |idx| && idx[m] == j;
      assert m <= k <==> j <= idx[k];
    }
  }

  lemma {:induction false} StandingCount(idx: seq<nat>, h: seq<Attempt>, ip: string, fs: seq<int>, k: nat, from: int)
    requires Lists(idx, h, ip, fs) && k < |fs|
    ensures |StandingSince(h, ip, idx[k], from)| == |Recent(fs[..k + 1], from)|
  {
    NumbersCount(idx, fs, k + 1, from);
    forall j: nat
      ensures j in StandingSince(h, ip, idx[k], from) <==> j in Numbers(idx, fs, k + 1, from)
    {
      StandingIsNumbered(idx, h, ip, fs, k, from, j);
    }
    assert StandingSince(h, ip, idx[k], from) == Numbers(idx, fs, k + 1, from);
  }

  /** Failure i starts a ban that is not over. */
  ghost predicate Starts(h: seq<Attempt>, ip: string, i: nat, threshold: int, window: int, ban: int, now: int) {
    Stands(h, ip, i) && 0 < threshold <= |StandingSince(h, ip, i, h[i].at - window)| && now < h[i].at + ban
  }

  lemma {:induction false} StartsIff(
    idx: seq<nat>, h: seq<Attempt>, ip: string, fs: seq<int>, k: nat, threshold: int, window: int, ban: int, now: int)
    requires Lists(idx, h, ip, fs) && k < |fs|
    ensures Starts(h, ip, idx[k], threshold, window, ban, now) <==>
            Completes(fs, k, threshold, window) && fs[k] + ban > now
  {
    StandingCount(idx, h, ip, fs, k, fs[k] - window);
  }

  /** The verdict's bans are those of the history. */
  lemma {:induction false} BanRunsIff(h: seq<Attempt>, ip: string, threshold: int, window: int, ban: int, now: int)
    ensures Banned(Failures(h, ip), threshold, window, ban, now) <==> BanRuns(h, ip, threshold, window, ban, now)
  {
    var fs := Failures(h, ip);
    var idx := ListOf(h, ip);
    if BanRuns(h, ip, threshold, window, ban, now) {
      var i: nat :| Starts(h, ip, i, threshold, window, ban, now);
      var k: nat :| k < |idx| && idx[k] == i;
      StartsIff(idx, h, ip, fs, k, threshold, window, ban, now);
    }
    if Banned(fs, threshold, window, ban, now) {
      var k: nat :| k < |fs| && Completes(fs, k, threshold, window) && fs[k] + ban > now;
      StartsIff(idx, h, ip, fs, k, threshold, window, ban, now);
    }
  }

  // ------------------------------------------------------------------
  // The coupling between an entry and the full list of failures.

  ghost predicate Ascending(fs: seq<int>, clock: int) {
    && (forall i, j | 0 <= i <= j < |fs| :: fs[i] <= fs[j])
    && (forall i | 0 <= i < |fs| :: fs[i] <= clock)
  }

  ghost predicate SameRecent(kept: seq<int>, fs: seq<int>, from: int) {
    forall c | c >= from :: Recent(kept, c) == Recent(fs, c)
  }

  ghost predicate Deadline(until: int, fs: seq<int>, threshold: int, window: int, ban: int, clock: int) {
    forall t | t >= clock :: until > t <==> Banned(fs, threshold, window, ban, t)
  }

  ghost predicate Tracks(cfg: Config, e: Entry, fs: seq<int>, clock: int) {
    && Ascending(fs, clock)
    && SameRecent(e.failures, fs, clock - cfg.hardWindow)
    && Deadline(e.hardUntil, fs, cfg.hardThreshold, cfg.hardWindow, cfg.hardBan, clock)
    && Deadline(e.softUntil, fs, cfg.softThreshold, SoftSpan(cfg), cfg.softBackoff, clock)
  }

  lemma {:induction false} RecentTwice(fs: seq<int>, c1: int, c2: int)
    ensures Recent(Recent(fs, c1), c2) == Recent(fs, if c1 < c2 then c2 else c1)
  {
    if fs != [] {
      var p := fs[..|fs| - 1];
      RecentTwice(p, c1, c2);
      if fs[|fs| - 1] >= c1 {
        assert Recent(fs, c1)[..|Recent(fs, c1)| - 1] == Recent(p, c1);
      }
    }
  }

  lemma {:induction false} RecentAppend(fs: seq<int>, x: int, c: int)
    ensures Recent(fs + [x], c) == Recent(fs, c) + (if x < c then [] else [x])
  {
    assert (fs + [x])[..|fs|] == fs;
  }

  lemma {:induction false} BannedAppend(fs: seq<int>, x: int, threshold: int, window: int, ban: int, t: int)
    ensures Banned(fs + [x], threshold, window, ban, t) <==>
              Banned(fs, threshold, window, ban, t)
              || (Completes(fs + [x], |fs|, threshold, window) && x + ban > t)
  {
    var gs := fs + [x];
    forall i: nat | i < |fs|
      ensures Completes(gs, i, threshold, window) == Completes(fs, i, threshold, window)
    {
      assert gs[..i + 1] == fs[..i + 1];
    }
    if Banned(gs, threshold, window, ban, t) {
      var i: nat :| i < |gs| && Completes(gs, i, threshold, window) && gs[i] + ban > t;
      assert i < |fs| ==> Completes(fs, i, threshold, window) && fs[i] + ban > t;
    }
    if Banned(fs, threshold, window, ban, t) {
      var i: nat :| i < |fs| && Completes(fs, i, threshold, window) && fs[i] + ban > t;
      assert Completes(gs, i, threshold, window) && gs[i] + ban > t;
    }
  }

  /** A failure moves the deadline exactly when it completes the threshold; count is what it is counted as. */
  lemma {:induction false} DeadlineAfterFailure(
    fs: seq<int>, now: int, threshold: int, window: int, ban: int, until: int, until': int, clock: int, count: nat)
    requires Ascending(fs, clock) && ZERO_TIME <= clock <= now
    requires Deadline(until, fs, threshold, window, ban, clock)
    requires count == |Recent(fs + [now], now - window)|
    requires if threshold > 0 && count >= threshold
             then until' == now + ban || (until' == until && until >= now + ban) else until' == until
    ensures Deadline(until', fs + [now], threshold, window, ban, now)
  {
    var gs := fs + [now];
    assert gs[..|fs| + 1] == gs;
    forall t | t >= now
      ensures until' > t <==> Banned(gs, threshold, window, ban, t)
    {
      BannedAppend(fs, now, threshold, window, ban, t);
      assert until > t <==> Banned(fs, threshold, window, ban, t);
    }
  }

  /** e' is e after one more failure at now. */
  predicate Bumped(cfg: Config, e: Entry, now: int, e': Entry) {
    && e'.failures == Recent(e.failures + [now], now - cfg.hardWindow)
    && e'.hardUntil == (
         if cfg.hardThreshold > 0 && |e'.failures| >= cfg.hardThreshold
         then now + cfg.hardBan else e.hardUntil)
    && e'.softUntil == (
         if cfg.softThreshold > 0 && |Recent(e'.failures, now - cfg.softWindow)| >= cfg.softThreshold
            && now + cfg.softBackoff > e.softUntil
         then now + cfg.softBackoff else e.softUntil)
  }

  /** Appending and compacting commute with taking any later window. */
  lemma {:induction false} FailureKeepsRecent(kept: seq<int>, fs: seq<int>, now: int, from: int, c: int)
    requires c >= from && Recent(kept, c) == Recent(fs, c)
    ensures Recent(Recent(kept + [now], from), c) == Recent(fs + [now], c)
  {
    RecentAppend(kept, now, c);
    RecentAppend(fs, now, c);
    RecentTwice(kept + [now], from, c);
  }

  lemma {:induction false} FailureKeepsSameRecent(kept: seq<int>, fs: seq<int>, now: int, from: int)
    requires SameRecent(kept, fs, from)
    ensures SameRecent(Recent(kept + [now], from), fs + [now], from)
  {
    forall c | c >= from
      ensures Recent(Recent(kept + [now], from), c) == Recent(fs + [now], c)
    {
      FailureKeepsRecent(kept, fs, now, from, c);
    }
  }

  lemma {:induction false} CompactedCounts(kept: seq<int>, fs: seq<int>, now: int, from: int)
    requires Recent(kept, from) == Recent(fs, from)
    ensures Recent(kept + [now], from) == Recent(fs + [now], from)
  {
    RecentAppend(kept, now, from);
    RecentAppend(fs, now, from);
  }

  /**
    The two counts taken on a compacted list are those of the full list: kept
    and all agree on the hard window, and so does what compaction leaves of kept
    on the soft one.
   */
  lemma {:induction false} CountsAgree(cfg: Config, kept: seq<int>, all: seq<int>, now: int)
    requires Recent(kept, now - cfg.hardWindow) == Recent(all, now - cfg.hardWindow)
    ensures Recent(Recent(kept, now - cfg.hardWindow), now - cfg.softWindow) == Recent(all, now - SoftSpan(cfg))
  {
    RecentTwice(all, now - cfg.hardWindow, now - cfg.softWindow);
  }

  /** What the new entry counts, over the full history. */
  lemma {:induction false} BumpedCounts(cfg: Config, e: Entry, fs: seq<int>, now: int, e': Entry)
    requires Bumped(cfg, e, now, e')
    requires Recent(e.failures, now - cfg.hardWindow) == Recent(fs, now - cfg.hardWindow)
    ensures e'.failures == Recent(fs + [now], now - cfg.hardWindow)
    ensures Recent(e'.failures, now - cfg.softWindow) == Recent(fs + [now], now - SoftSpan(cfg))
  {
    CompactedCounts(e.failures, fs, now, now - cfg.hardWindow);
    CountsAgree(cfg, e.failures + [now], fs + [now], now);
  }

  lemma {:induction false} DeadlinesKept(
    cfg: Config, e: Entry, fs: seq<int>, clock: int, now: int, e': Entry, hard: nat, soft: nat)
    requires Ascending(fs, clock) && ZERO_TIME <= clock <= now
    requires Deadline(e.hardUntil, fs, cfg.hardThreshold, cfg.hardWindow, cfg.hardBan, clock)
    requires Deadline(e.softUntil, fs, cfg.softThreshold, SoftSpan(cfg), cfg.softBackoff, clock)
    requires hard == |Recent(fs + [now], now - cfg.hardWindow)| && soft == |Recent(fs + [now], now - SoftSpan(cfg))|
    requires e'.hardUntil ==
               if cfg.hardThreshold > 0 && hard >= cfg.hardThreshold then now + cfg.hardBan else e.hardUntil
    requires e'.softUntil ==
               if && cfg.softThreshold > 0 && soft >= cfg.softThreshold
                  && now + cfg.softBackoff > e.softUntil
               then now + cfg.softBackoff
               else e.softUntil
    ensures Deadline(e'.hardUntil, fs + [now], cfg.hardThreshold, cfg.hardWindow, cfg.hardBan, now)
    ensures Deadline(e'.softUntil, fs + [now], cfg.softThreshold, SoftSpan(cfg), cfg.softBackoff, now)
  {
    DeadlineAfterFailure(fs, now, cfg.hardThreshold, cfg.hardWindow, cfg.hardBan, e.hardUntil, e'.hardUntil,
      clock, hard);
    DeadlineAfterFailure(fs, now, cfg.softThreshold, SoftSpan(cfg), cfg.softBackoff, e.softUntil, e'.softUntil,
      clock, soft);
  }

  /** One recorded failure keeps the entry and the full history in step. */
  lemma {:induction false} FailureKeepsTracks(cfg: Config, e: Entry, fs: seq<int>, clock: int, now: int, e': Entry)
    requires Tracks(cfg, e, fs, clock) && ZERO_TIME <= clock <= now
    requires Bumped(cfg, e, now, e')
    ensures Tracks(cfg, e', fs + [now], now)
  {
    FailureKeepsSameRecent(e.failures, fs, now, now - cfg.hardWindow);
    BumpedCounts(cfg, e, fs, now, e');
    DeadlinesKept(cfg, e, fs, clock, now, e', |e'.failures|, |Recent(e'.failures, now - cfg.softWindow)|);
  }

  /** Compaction at the current time forgets nothing that can still matter. */
  lemma {:induction false} CompactionKeepsTracks(cfg: Config, e: Entry, fs: seq<int>, clock: int, now: int)
    requires Tracks(cfg, e, fs, clock) && clock <= now
    ensures Tracks(cfg, e.(failures := Recent(e.failures, now - cfg.hardWindow)), fs, now)
  {
    forall c | c >= now - cfg.hardWindow
      ensures Recent(Recent(e.failures, now - cfg.hardWindow), c) == Recent(fs, c)
    {
      RecentTwice(e.failures, now - cfg.hardWindow, c);
      assert Recent(e.failures, c) == Recent(fs, c);
    }
  }

  lemma {:induction false} TracksLater(cfg: Config, e: Entry, fs: seq<int>, clock: int, now: int)
    requires Tracks(cfg, e, fs, clock) && clock <= now
    ensures Tracks(cfg, e, fs, now)
  {}

  lemma {:induction false} FailuresAppend(h: seq<Attempt>, a: Attempt, ip: string)
    ensures Failures(h + [a], ip) ==
              if a.ip != ip then Failures(h, ip)
              else if a.Failure? then Failures(h, ip) + [a.at] else []
  {
    assert (h + [a])[..|h|] == h;
  }

  /** An entry with nothing recent and no running ban is as good as none. */
  lemma {:induction false} StaleEntryIsNoEntry(cfg: Config, e: Entry, fs: seq<int>, now: int)
    requires Tracks(cfg, e, fs, now) && now >= ZERO_TIME
    requires e.failures == [] && e.hardUntil <= now && e.softUntil <= now
    ensures Tracks(cfg, NO_ENTRY, fs, now)
  {}

  // ------------------------------------------------------------------
  // When the soft window is honoured.

  /** The soft bans as configured and as counted on the compacted list are the same, at any time after any failures. */
  ghost predicate SoftHonoured(cfg: Config) {
    forall fs, t | Ascending(fs, t) ::
      Banned(fs, cfg.softThreshold, cfg.softWindow, cfg.softBackoff, t)
      <==> Banned(fs, cfg.softThreshold, SoftSpan(cfg), cfg.softBackoff, t)
  }

  /**
    The configurations for which that holds: the soft window is not the longer
    one, or soft bans never start or never last, or one failure is enough and
    is still there to be counted.
   */
  predicate SoftCounted(cfg: Config) {
    || cfg.softWindow <= cfg.hardWindow
    || cfg.softThreshold <= 0 || cfg.softBackoff <= 0 || cfg.softWindow < 0
    || (cfg.softThreshold == 1 && cfg.hardWindow >= 0)
  }

  lemma {:induction false} RecentCount(fs: seq<int>, c: int)
    ensures |Recent(fs, c)| <= |fs|
    ensures fs != [] && fs[0] < c ==> |Recent(fs, c)| < |fs|
    ensures (forall i | 0 <= i < |fs| :: fs[i] >= c) ==> Recent(fs, c) == fs
    ensures (forall i | 0 <= i < |fs| :: fs[i] < c) ==> Recent(fs, c) == []
  {
    if fs != [] {
      var p := fs[..|fs| - 1];
      RecentCount(p, c);
      assert fs == p + [fs[|fs| - 1]];
      assert forall i | 0 <= i < |p| :: p[i] == fs[i];
      assert Recent(fs, c) == if fs[|fs| - 1] < c then Recent(p, c) else Recent(p, c) + [fs[|fs| - 1]];
    }
  }

  /** Inside a window that has any length a failure counts itself; inside a negative one nothing counts. */
  lemma {:induction false} OneCompletes(fs: seq<int>, clock: int, i: nat, threshold: int, window: int)
    requires Ascending(fs, clock) && i < |fs| && threshold > 0
    ensures window >= 0 ==> Completes(fs, i, 1, window)
    ensures window < 0 ==> !Completes(fs, i, threshold, window)
  {
    var p := fs[..i + 1];
    assert p == fs[..i] + [fs[i]];
    RecentAppend(fs[..i], fs[i], fs[i] - window);
    RecentCount(p, fs[i] - window);
  }

  lemma {:induction false} CountedIsHonoured(cfg: Config)
    requires SoftCounted(cfg)
    ensures SoftHonoured(cfg)
  {
    forall fs, t | Ascending(fs, t)
      ensures Banned(fs, cfg.softThreshold, cfg.softWindow, cfg.softBackoff, t)
              <==> Banned(fs, cfg.softThreshold, SoftSpan(cfg), cfg.softBackoff, t)
    {
      if cfg.softThreshold > 0 && cfg.softBackoff > 0 && cfg.hardWindow < cfg.softWindow {
        forall i: nat | i < |fs|
          ensures Completes(fs, i, cfg.softThreshold, cfg.softWindow)
                  <==> Completes(fs, i, cfg.softThreshold, SoftSpan(cfg))
        {
          OneCompletes(fs, t, i, cfg.softThreshold, cfg.softWindow);
          OneCompletes(fs, t, i, cfg.softThreshold, SoftSpan(cfg));
        }
      }
    }
  }

  /** One failure, and the rest of the threshold exactly a soft window later. */
  function Spread(threshold: int, window: int): (fs: seq<int>)
    requires threshold >= 1
    ensures |fs| == threshold
  {
    seq(threshold, i => if i == 0 then 0 else window)
  }

  lemma {:induction false} SpreadIsMissed(cfg: Config, i: nat)
    requires !SoftCounted(cfg) && i < cfg.softThreshold
    ensures !Completes(Spread(cfg.softThreshold, cfg.softWindow), i, cfg.softThreshold, SoftSpan(cfg))
  {
    var fs := Spread(cfg.softThreshold, cfg.softWindow);
    RecentCount(fs[..i + 1], fs[i] - cfg.hardWindow);
  }

  /** The spread failures reach the threshold inside the soft window. */
  lemma {:induction false} SpreadIsBanned(threshold: int, window: int, ban: int)
    requires threshold >= 1 && window >= 0 && ban > 0
    ensures var fs := Spread(threshold, window);
            Ascending(fs, fs[|fs| - 1]) && Banned(fs, threshold, window, ban, fs[|fs| - 1])
  {
    var fs := Spread(threshold, window);
    var n := |fs| - 1;
    assert fs[..n + 1] == fs;
    RecentCount(fs, fs[n] - window);
    assert Completes(fs, n, threshold, window);
  }

  lemma {:induction false} SpreadTellsApart(cfg: Config)
    requires !SoftCounted(cfg)
    ensures !SoftHonoured(cfg)
  {
    var fs := Spread(cfg.softThreshold, cfg.softWindow);
    var t := fs[|fs| - 1];
    SpreadIsBanned(cfg.softThreshold, cfg.softWindow, cfg.softBackoff);
    forall i: nat | i < |fs|
      ensures !Completes(fs, i, cfg.softThreshold, SoftSpan(cfg))
    {
      SpreadIsMissed(cfg, i);
    }
    assert !Banned(fs, cfg.softThreshold, SoftSpan(cfg), cfg.softBackoff, t);
  }

  /** The exact configurations whose soft window is honoured. */
  lemma {:induction false} SoftWindowHonouredIff(cfg: Config)
    ensures SoftHonoured(cfg) <==> SoftCounted(cfg)
  {
    if SoftCounted(cfg) {
      CountedIsHonoured(cfg);
    } else {
      SpreadTellsApart(cfg);
    }
  }

  // ------------------------------------------------------------------
  // The program.

  /** The in-place filter that RecordFailure and gcOnce share. */
  method Compact(failures: seq<int>, cutoff: int) returns (keep: seq<int>)
    ensures keep == Recent(failures, cutoff)
  {
    keep := [];
    for i := 0 to |failures|
      invariant keep == Recent(failures[..i], cutoff)
    {
      assert failures[..i + 1][..i] == failures[..i];
      if failures[i] >= cutoff {
        keep := keep + [failures[i]];
      }
    }
    assert failures[..|failures|] == failures;
  }

  method CountRecent(failures: seq<int>, cutoff: int) returns (n: nat)
    ensures n == |Recent(failures, cutoff)|
  {
    n := 0;
    for i := 0 to |failures|
      invariant n == |Recent(failures[..i], cutoff)|
    {
      assert failures[..i + 1][..i] == failures[..i];
      if failures[i] >= cutoff {
        n := n + 1;
      }
    }
    assert failures[..|failures|] == failures;
  }

  /** The body of RecordFailure on one entry. */
  method Bump(cfg: Config, e: Entry, now: int) returns (e': Entry)
    ensures Bumped(cfg, e, now, e')
  {
    var keep := Compact(e.failures + [now], now - cfg.hardWindow);
    var hardCount := |keep|;
    var softCount := CountRecent(keep, now - cfg.softWindow);
    var hardUntil, softUntil := e.hardUntil, e.softUntil;
    if cfg.hardThreshold > 0 && hardCount >= cfg.hardThreshold {
      hardUntil := now + cfg.hardBan;
    }
    if cfg.softThreshold > 0 && softCount >= cfg.softThreshold {
      var newUntil := now + cfg.softBackoff;
      if newUntil > softUntil {
        softUntil := newUntil;
      }
    }
    e' := Entry(keep, softUntil, hardUntil);
  }

  function Lookup(entries: map<string, Entry>, ip: string): Entry {
    if ip in entries then entries[ip] else NO_ENTRY
  }

  ghost predicate AllTrack(cfg: Config, entries: map<string, Entry>, h: seq<Attempt>, clock: int) {
    forall ip :: Tracks(cfg, Lookup(entries, ip), Failures(h, ip), clock)
  }

  lemma {:induction false} FailureKeepsAll(
    cfg: Config, entries: map<string, Entry>, h: seq<Attempt>, clock: int, ip: string, now: int, e': Entry)
    requires AllTrack(cfg, entries, h, clock) && ZERO_TIME <= clock <= now
    requires Bumped(cfg, Lookup(entries, ip), now, e')
    ensures AllTrack(cfg, entries[ip := e'], h + [Failure(ip, now)], now)
  {
    forall k
      ensures Tracks(cfg, Lookup(entries[ip := e'], k), Failures(h + [Failure(ip, now)], k), now)
    {
      FailuresAppend(h, Failure(ip, now), k);
      if k == ip {
        FailureKeepsTracks(cfg, Lookup(entries, k), Failures(h, k), clock, now, e');
      } else {
        TracksLater(cfg, Lookup(entries, k), Failures(h, k), clock, now);
      }
    }
  }

  lemma {:induction false} SuccessKeepsAll(
    cfg: Config, entries: map<string, Entry>, h: seq<Attempt>, clock: int, ip: string)
    requires AllTrack(cfg, entries, h, clock) && ZERO_TIME <= clock
    ensures AllTrack(cfg, entries - {ip}, h + [Success(ip)], clock)
  {
    forall k
      ensures Tracks(cfg, Lookup(entries - {ip}, k), Failures(h + [Success(ip)], k), clock)
    {
      FailuresAppend(h, Success(ip), k);
      assert Tracks(cfg, Lookup(entries, k), Failures(h, k), clock);
    }
  }

  lemma {:induction false} AllTrackLater(
    cfg: Config, entries: map<string, Entry>, h: seq<Attempt>, clock: int, now: int)
    requires AllTrack(cfg, entries, h, clock) && clock <= now
    ensures AllTrack(cfg, entries, h, now)
  {
    forall k
      ensures Tracks(cfg, Lookup(entries, k), Failures(h, k), now)
    {
      TracksLater(cfg, Lookup(entries, k), Failures(h, k), clock, now);
    }
  }

  /** One collected entry: compacted, and dropped when nothing is left of it. */
  lemma {:induction false} CollectKeepsAll(
    cfg: Config, entries: map<string, Entry>, h: seq<Attempt>, now: int, k: string)
    requires AllTrack(cfg, entries, h, now) && ZERO_TIME <= now && k in entries
    requires entries[k].hardUntil <= now && entries[k].softUntil <= now
    ensures var e' := entries[k].(failures := Recent(entries[k].failures, now - cfg.hardWindow));
            && AllTrack(cfg, entries[k := e'], h, now)
            && (e'.failures == [] ==> AllTrack(cfg, entries - {k}, h, now))
  {
    var e' := entries[k].(failures := Recent(entries[k].failures, now - cfg.hardWindow));
    forall ip
      ensures Tracks(cfg, Lookup(entries[k := e'], ip), Failures(h, ip), now)
      ensures e'.failures == [] ==> Tracks(cfg, Lookup(entries - {k}, ip), Failures(h, ip), now)
    {
      assert Tracks(cfg, Lookup(entries, ip), Failures(h, ip), now);
      if ip == k {
        CompactionKeepsTracks(cfg, entries[k], Failures(h, k), now, now);
        if e'.failures == [] {
          StaleEntryIsNoEntry(cfg, e', Failures(h, k), now);
        }
      }
    }
  }

  function StateOf(e: Entry, now: int): State {
    if e.hardUntil > now then HardBanned
    else if e.softUntil > now then SoftBackoff
    else Allowed
  }

  class Lockout {
    const cfg: Config
    var entries: map<string, Entry>
    ghost var history: seq<Attempt>
    ghost var clock: int

    ghost predicate Valid()
      reads this
    {
      clock >= ZERO_TIME && AllTrack(cfg, entries, history, clock)
    }

    constructor (cfg: Config)
      ensures Valid() && this.cfg == cfg && history == [] && clock == ZERO_TIME
    {
      this.cfg := cfg;
      entries := map[];
      history := [];
      clock := ZERO_TIME;
    }

    /** The verdict the full history calls for. */
    ghost function Spec(ip: string, now: int): State
      reads this
    {
      Verdict(cfg, Failures(history, ip), SoftSpan(cfg), now)
    }

    method RecordFailure(ip: string, now: int) returns (state: State)
      requires Valid() && now >= clock
      modifies this
      ensures Valid() && clock == now
      ensures history == old(history) + [Failure(ip, now)]
      ensures state == Spec(ip, now)
    {
      var e' := Bump(cfg, Lookup(entries, ip), now);
      FailureKeepsAll(cfg, entries, history, clock, ip, now, e');
      entries := entries[ip := e'];
      history := history + [Failure(ip, now)];
      clock := now;
      state := Check(ip, now);
    }

    method RecordSuccess(ip: string)
      requires Valid()
      modifies this
      ensures Valid() && clock == old(clock)
      ensures history == old(history) + [Success(ip)]
    {
      SuccessKeepsAll(cfg, entries, history, clock, ip);
      entries := entries - {ip};
      history := history + [Success(ip)];
    }

    /** Check agrees with the full history, whatever was compacted or collected. */
    method Check(ip: string, now: int) returns (state: State)
      requires Valid() && now >= clock
      ensures state == Spec(ip, now)
      ensures state.HardBanned? <==> BanRuns(history, ip, cfg.hardThreshold, cfg.hardWindow, cfg.hardBan, now)
      ensures state.SoftBackoff? <==>
              && !BanRuns(history, ip, cfg.hardThreshold, cfg.hardWindow, cfg.hardBan, now)
              && var window := if cfg.softWindow < cfg.hardWindow then cfg.softWindow else cfg.hardWindow;
                 BanRuns(history, ip, cfg.softThreshold, window, cfg.softBackoff, now)
      ensures SoftCounted(cfg) ==> state == Verdict(cfg, Failures(history, ip), cfg.softWindow, now)
    {
      if SoftCounted(cfg) {
        CountedIsHonoured(cfg);
      }
      BanRunsIff(history, ip, cfg.hardThreshold, cfg.hardWindow, cfg.hardBan, now);
      BanRunsIff(history, ip, cfg.softThreshold, SoftSpan(cfg), cfg.softBackoff, now);
      assert Tracks(cfg, Lookup(entries, ip), Failures(history, ip), clock);
      if ip !in entries {
        return Allowed;
      }
      return StateOf(entries[ip], now);
    }

    /** A collection pass may run at any moment: the history, and so every verdict, is unchanged. */
    method GcOnce(now: int)
      requires Valid() && now >= clock
      modifies this
      ensures Valid() && clock == now
      ensures history == old(history)
      ensures forall ip, t | t >= now :: Spec(ip, t) == old(Spec(ip, t))
    {
      AllTrackLater(cfg, entries, history, clock, now);
      clock := now;
      var todo := entries.Keys;
      while todo != {}
        invariant Valid() && clock == now
        invariant history == old(history)
        invariant todo <= entries.Keys
        decreases todo
      {
        var k :| k in todo;
        todo := todo - {k};
        var e := entries[k];
        if e.hardUntil <= now && e.softUntil <= now {
          CollectKeepsAll(cfg, entries, history, now, k);
          var keep := Compact(e.failures, now - cfg.hardWindow);
          if |keep| == 0 {
            entries := entries - {k};
          } else {
            entries := entries[k := e.(failures := keep)];
          }
        }
      }
    }
  }
}
