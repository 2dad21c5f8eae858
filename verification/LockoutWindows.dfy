/**
  Which lockout configurations give the verdicts that their two windows call
  for. A soft window longer than the hard one is counted over the hard one, and
  the difference shows unless a hard ban always covers it.
 */
module LockoutWindows {
  import opened Lockout

  /** Every verdict is the one that the configured windows call for. */
  ghost predicate VerdictsRight(cfg: Config) {
    forall fs, t | Ascending(fs, t) ::
      Verdict(cfg, fs, cfg.softWindow, t) == Verdict(cfg, fs, SoftSpan(cfg), t)
  }

  /** n for every stretch of the given size that begins inside the span. */
  function PerStretch(span: int, size: int, n: nat): (r: nat)
    requires size > 0
    ensures r >= n
    decreases span
  {
    if span < size then n else n + PerStretch(span - size, size, n)
  }

  /** The most failures that fit in a soft window without completing the hard threshold. */
  function Capacity(cfg: Config): nat
    requires 0 <= cfg.hardWindow && 1 <= cfg.hardThreshold
  {
    PerStretch(cfg.softWindow, cfg.hardWindow + 1, cfg.hardThreshold - 1)
  }

  /**
    A soft ban always has a hard ban over it: each failure starts a hard ban
    that lasts as long, or the soft threshold cannot be reached inside the soft
    window without a hard ban that outlasts window and backoff together.
   */
  predicate HardHides(cfg: Config) {
    && 0 <= cfg.hardWindow && 1 <= cfg.hardThreshold
    && if cfg.hardThreshold == 1 then cfg.softBackoff <= cfg.hardBan
       else cfg.softWindow + cfg.softBackoff <= cfg.hardBan && Capacity(cfg) < cfg.softThreshold
  }

  // ------------------------------------------------------------------
  // Counting.

  lemma {:induction false} RecentWider(fs: seq<int>, c: int, d: int)
    requires d <= c
    ensures |Recent(fs, c)| <= |Recent(fs, d)|
  {
    if fs != [] {
      RecentWider(fs[..|fs| - 1], c, d);
    }
  }

  /** The first k failures are too old to count. */
  lemma {:induction false} RecentSkips(fs: seq<int>, k: nat, c: int)
    requires k <= |fs| && forall j | 0 <= j < k :: fs[j] < c
    ensures |Recent(fs, c)| <= |fs| - k
  {
    if k < |fs| {
      RecentSkips(fs[..|fs| - 1], k, c);
    } else {
      RecentCount(fs, c);
    }
  }

  /** How many of the failures lie before c. */
  function Older(fs: seq<int>, c: int): (k: nat)
    ensures k <= |fs|
  {
    if fs == [] || fs[|fs| - 1] < c then |fs| else Older(fs[..|fs| - 1], c)
  }

  lemma {:induction false} RecentSplits(fs: seq<int>, clock: int, from: int, c: int)
    requires Ascending(fs, clock) && from <= c
    ensures forall j | 0 <= j < |fs| :: j < Older(fs, c) <==> fs[j] < c
    ensures |Recent(fs, from)| == |Recent(fs[..Older(fs, c)], from)| + |Recent(fs, c)|
  {
    if fs == [] || fs[|fs| - 1] < c {
      RecentCount(fs, c);
      assert fs[..|fs|] == fs;
    } else {
      var p := fs[..|fs| - 1];
      RecentSplits(p, clock, from, c);
      assert fs[..Older(fs, c)] == p[..Older(fs, c)];
    }
  }

  lemma {:induction false} PerStretchGrows(a: int, b: int, size: int, n: nat)
    requires size > 0 && a <= b
    ensures PerStretch(a, size, n) <= PerStretch(b, size, n)
    decreases a
  {
    if a >= size {
      PerStretchGrows(a - size, b - size, size, n);
    }
  }

  /** The failures before c are the first k. */
  lemma {:induction false} SplitAt(fs: seq<int>, clock: int, i: nat, from: int, c: int) returns (k: nat)
    requires Ascending(fs, clock) && i < |fs| && from <= c <= fs[i]
    ensures k <= i && (k > 0 ==> fs[k - 1] < c)
    ensures |Recent(fs[..i + 1], from)| == |Recent(fs[..k], from)| + |Recent(fs[..i + 1], c)|
    ensures k == 0 || fs[k - 1] < from ==> Recent(fs[..k], from) == []
  {
    var p := fs[..i + 1];
    RecentSplits(p, clock, from, c);
    k := Older(p, c);
    assert p[..k] == fs[..k];
    assert p[i] == fs[i];
    RecentCount(fs[..k], from);
  }

  /** Without a hard ban, failures come at most hardThreshold - 1 to a hard window. */
  lemma {:induction false} SparseCount(fs: seq<int>, clock: int, i: nat, from: int, threshold: int, window: int)
    requires Ascending(fs, clock) && i < |fs| && from <= fs[i] && threshold > 0 && window >= 0
    requires forall j: nat | j <= i && from <= fs[j] :: !Completes(fs, j, threshold, window)
    ensures |Recent(fs[..i + 1], from)| <= PerStretch(fs[i] - from, window + 1, threshold - 1)
    decreases i
  {
    var p, c := fs[..i + 1], fs[i] - window;
    assert !Completes(fs, i, threshold, window);
    if c <= from {
      RecentWider(p, from, c);
    } else {
      var k := SplitAt(fs, clock, i, from, c);
      if k > 0 && from <= fs[k - 1] {
        SparseCount(fs, clock, k - 1, from, threshold, window);
        PerStretchGrows(fs[k - 1] - from, fs[i] - from - (window + 1), window + 1, threshold - 1);
      }
    }
  }

  // ------------------------------------------------------------------
  // The difference hidden.

  /** The failure that reaches the soft threshold lies under a hard ban. */
  lemma {:induction false} CrowdIsHardBanned(cfg: Config, fs: seq<int>, t: int, i: nat)
    requires HardHides(cfg) && Ascending(fs, t) && i < |fs| && 0 <= cfg.softWindow
    requires Completes(fs, i, cfg.softThreshold, cfg.softWindow) && t < fs[i] + cfg.softBackoff
    ensures Banned(fs, cfg.hardThreshold, cfg.hardWindow, cfg.hardBan, t)
  {
    if cfg.hardThreshold == 1 {
      OneCompletes(fs, t, i, 1, cfg.hardWindow);
    } else {
      var from := fs[i] - cfg.softWindow;
      if !Banned(fs, cfg.hardThreshold, cfg.hardWindow, cfg.hardBan, t) {
        SparseCount(fs, t, i, from, cfg.hardThreshold, cfg.hardWindow);
      }
    }
  }

  lemma {:induction false} SpanIsWithin(cfg: Config, fs: seq<int>, t: int)
    requires Banned(fs, cfg.softThreshold, SoftSpan(cfg), cfg.softBackoff, t)
    ensures Banned(fs, cfg.softThreshold, cfg.softWindow, cfg.softBackoff, t)
  {
    var i: nat :| i < |fs| && Completes(fs, i, cfg.softThreshold, SoftSpan(cfg)) && fs[i] + cfg.softBackoff > t;
    RecentWider(fs[..i + 1], fs[i] - SoftSpan(cfg), fs[i] - cfg.softWindow);
    assert Completes(fs, i, cfg.softThreshold, cfg.softWindow);
  }

  lemma {:induction false} HiddenIsRight(cfg: Config)
    requires HardHides(cfg) && 0 <= cfg.softWindow
    ensures VerdictsRight(cfg)
  {
    forall fs, t | Ascending(fs, t)
      ensures Verdict(cfg, fs, cfg.softWindow, t) == Verdict(cfg, fs, SoftSpan(cfg), t)
    {
      if Banned(fs, cfg.softThreshold, SoftSpan(cfg), cfg.softBackoff, t) {
        SpanIsWithin(cfg, fs, t);
      } else if Banned(fs, cfg.softThreshold, cfg.softWindow, cfg.softBackoff, t) {
        var i: nat :| i < |fs| && Completes(fs, i, cfg.softThreshold, cfg.softWindow) && fs[i] + cfg.softBackoff > t;
        CrowdIsHardBanned(cfg, fs, t, i);
      }
    }
  }

  // ------------------------------------------------------------------
  // The difference shown. Each list of failures reaches the soft threshold
  // inside the soft window and never inside the hard one.

  /** Failures fs show the difference at t. */
  ghost predicate Shows(cfg: Config, fs: seq<int>, t: int) {
    && fs != [] && Ascending(fs, t) && t < fs[|fs| - 1] + cfg.softBackoff
    && Completes(fs, |fs| - 1, cfg.softThreshold, cfg.softWindow)
    && (forall i: nat | i < |fs| :: !Completes(fs, i, cfg.softThreshold, SoftSpan(cfg)))
    && !Banned(fs, cfg.hardThreshold, cfg.hardWindow, cfg.hardBan, t)
  }

  lemma {:induction false} ShownIsWrong(cfg: Config, fs: seq<int>, t: int)
    requires Shows(cfg, fs, t)
    ensures !VerdictsRight(cfg)
  {
    assert Banned(fs, cfg.softThreshold, cfg.softWindow, cfg.softBackoff, t);
    assert Verdict(cfg, fs, cfg.softWindow, t) != Verdict(cfg, fs, SoftSpan(cfg), t);
  }

  lemma {:induction false} WholeListCounts(cfg: Config, fs: seq<int>)
    requires |fs| == cfg.softThreshold && fs != []
    requires forall i | 0 <= i < |fs| :: fs[i] >= fs[|fs| - 1] - cfg.softWindow
    ensures Completes(fs, |fs| - 1, cfg.softThreshold, cfg.softWindow)
  {
    assert fs[..|fs| - 1 + 1] == fs;
    RecentCount(fs, fs[|fs| - 1] - cfg.softWindow);
  }

  /** One early failure: hard bans cannot start, or they end before the soft backoff does. */
  lemma {:induction false} EarlyOneShows(cfg: Config)
    requires !SoftCounted(cfg)
    requires cfg.hardThreshold <= 0 || cfg.hardWindow < 0 || cfg.hardBan < cfg.softBackoff
             || (2 <= cfg.hardThreshold && cfg.softThreshold <= cfg.hardThreshold)
    ensures !VerdictsRight(cfg)
  {
    var fs := Spread(cfg.softThreshold, cfg.softWindow);
    var last := fs[|fs| - 1];
    var t := if 0 < cfg.hardBan < cfg.softBackoff then last + cfg.hardBan else last;
    WholeListCounts(cfg, fs);
    forall i: nat | i < |fs|
      ensures !Completes(fs, i, cfg.softThreshold, SoftSpan(cfg))
      ensures !(Completes(fs, i, cfg.hardThreshold, cfg.hardWindow) && fs[i] + cfg.hardBan > t)
    {
      SpreadIsMissed(cfg, i);
      RecentCount(fs[..i + 1], fs[i] - cfg.hardWindow);
    }
    assert Shows(cfg, fs, t);
    ShownIsWrong(cfg, fs, t);
  }

  /** All but one of the failures at once, and the last a soft window later. */
  function Delayed(threshold: int, window: int): (fs: seq<int>)
    requires threshold >= 1
    ensures |fs| == threshold
  {
    seq(threshold, i => if i < threshold - 1 then 0 else window)
  }

  lemma {:induction false} DelayedIsMissed(cfg: Config, i: nat)
    requires !SoftCounted(cfg) && 0 <= cfg.hardWindow && i < cfg.softThreshold
    ensures var n := |Recent(Delayed(cfg.softThreshold, cfg.softWindow)[..i + 1],
                             Delayed(cfg.softThreshold, cfg.softWindow)[i] - cfg.hardWindow)|;
            n < cfg.softThreshold && (i == cfg.softThreshold - 1 ==> n <= 1)
  {
    var fs := Delayed(cfg.softThreshold, cfg.softWindow);
    if i < cfg.softThreshold - 1 {
      RecentCount(fs[..i + 1], fs[i] - cfg.hardWindow);
    } else {
      RecentSkips(fs[..i + 1], i, fs[i] - cfg.hardWindow);
    }
  }

  /** One late failure: the hard bans of the early ones are over before its soft backoff is. */
  lemma {:induction false} LateOneShows(cfg: Config)
    requires !SoftCounted(cfg) && 0 <= cfg.hardWindow && 2 <= cfg.hardThreshold
    requires cfg.hardBan < cfg.softWindow + cfg.softBackoff
    ensures !VerdictsRight(cfg)
  {
    var fs := Delayed(cfg.softThreshold, cfg.softWindow);
    var t := cfg.softWindow + cfg.softBackoff - 1;
    WholeListCounts(cfg, fs);
    forall i: nat | i < |fs|
      ensures !Completes(fs, i, cfg.softThreshold, SoftSpan(cfg))
      ensures !(Completes(fs, i, cfg.hardThreshold, cfg.hardWindow) && fs[i] + cfg.hardBan > t)
    {
      DelayedIsMissed(cfg, i);
    }
    assert !Banned(fs, cfg.hardThreshold, cfg.hardWindow, cfg.hardBan, t);
    assert Shows(cfg, fs, t);
    ShownIsWrong(cfg, fs, t);
  }

  /** The time of failure i when failures come n at a time, every size. */
  function GroupTime(i: nat, n: nat, size: nat): (r: nat)
    requires n > 0
  {
    if i < n then 0 else size + GroupTime(i - n, n, size)
  }

  /** The first failure of the group of failure i. */
  function GroupStart(i: nat, n: nat): (k: nat)
    requires n > 0
    ensures k <= i < k + n
  {
    if i < n then 0 else n + GroupStart(i - n, n)
  }

  lemma {:induction false} GroupTimeGrows(i: nat, j: nat, n: nat, size: nat)
    requires n > 0 && i <= j
    ensures GroupTime(i, n, size) <= GroupTime(j, n, size)
    decreases i
  {
    if i >= n {
      GroupTimeGrows(i - n, j - n, n, size);
    }
  }

  lemma {:induction false} EarlierGroup(j: nat, i: nat, n: nat, size: nat)
    requires n > 0 && j < GroupStart(i, n)
    ensures GroupTime(j, n, size) + size <= GroupTime(i, n, size)
    decreases j
  {
    if j >= n {
      EarlierGroup(j - n, i - n, n, size);
    }
  }

  lemma {:induction false} GroupsFit(i: nat, span: nat, n: nat, size: nat)
    requires n > 0 && size > 0 && i < PerStretch(span, size, n)
    ensures GroupTime(i, n, size) <= span
    decreases i
  {
    if i >= n {
      GroupsFit(i - n, span - size, n, size);
    }
  }

  /** Failures in groups of hardThreshold - 1, just over a hard window apart. */
  function Grouped(cfg: Config): (fs: seq<int>)
    requires 2 <= cfg.hardThreshold && 0 <= cfg.hardWindow && 0 <= cfg.softThreshold
    ensures |fs| == cfg.softThreshold
  {
    seq(cfg.softThreshold, i requires 0 <= i < cfg.softThreshold =>
      GroupTime(i, cfg.hardThreshold - 1, cfg.hardWindow + 1))
  }

  /** At most one group lies inside a hard window. */
  lemma {:induction false} GroupedIsSparse(cfg: Config, i: nat)
    requires 2 <= cfg.hardThreshold && 0 <= cfg.hardWindow && i < cfg.softThreshold
    ensures |Recent(Grouped(cfg)[..i + 1], Grouped(cfg)[i] - cfg.hardWindow)| < cfg.hardThreshold
  {
    var n, size := cfg.hardThreshold - 1, cfg.hardWindow + 1;
    var p := Grouped(cfg)[..i + 1];
    var k := GroupStart(i, n);
    forall j | 0 <= j < k
      ensures p[j] < Grouped(cfg)[i] - cfg.hardWindow
    {
      EarlierGroup(j, i, n, size);
    }
    RecentSkips(p, k, Grouped(cfg)[i] - cfg.hardWindow);
  }

  lemma {:induction false} GroupedSpans(cfg: Config)
    requires 2 <= cfg.hardThreshold && 0 <= cfg.hardWindow && 0 <= cfg.softWindow
    requires 0 < cfg.softThreshold <= Capacity(cfg)
    ensures var fs := Grouped(cfg);
            Ascending(fs, fs[|fs| - 1]) && 0 <= fs[0] && fs[|fs| - 1] <= cfg.softWindow
  {
    var n, size := cfg.hardThreshold - 1, cfg.hardWindow + 1;
    var fs := Grouped(cfg);
    forall i, j | 0 <= i <= j < |fs|
      ensures fs[i] <= fs[j]
    {
      GroupTimeGrows(i, j, n, size);
    }
    GroupsFit(|fs| - 1, cfg.softWindow, n, size);
  }

  /** Failures spread so thin that no hard ban starts at all. */
  lemma {:induction false} SparseShows(cfg: Config, fs: seq<int>)
    requires !SoftCounted(cfg) && cfg.hardThreshold <= cfg.softThreshold == |fs|
    requires fs != [] && Ascending(fs, fs[|fs| - 1]) && fs[|fs| - 1] - cfg.softWindow <= fs[0]
    requires forall i | 0 <= i < |fs| :: |Recent(fs[..i + 1], fs[i] - cfg.hardWindow)| < cfg.hardThreshold
    ensures !VerdictsRight(cfg)
  {
    var t := fs[|fs| - 1];
    WholeListCounts(cfg, fs);
    assert SoftSpan(cfg) == cfg.hardWindow;
    forall i: nat | i < |fs|
      ensures !Completes(fs, i, cfg.softThreshold, SoftSpan(cfg))
      ensures !Completes(fs, i, cfg.hardThreshold, cfg.hardWindow)
    {
    }
    assert !Banned(fs, cfg.hardThreshold, cfg.hardWindow, cfg.hardBan, t);
    assert Shows(cfg, fs, t);
    ShownIsWrong(cfg, fs, t);
  }

  lemma {:induction false} GroupsShow(cfg: Config)
    requires !SoftCounted(cfg) && 0 <= cfg.hardWindow && 2 <= cfg.hardThreshold <= cfg.softThreshold
    requires cfg.softThreshold <= Capacity(cfg)
    ensures !VerdictsRight(cfg)
  {
    GroupedSpans(cfg);
    forall i | 0 <= i < |Grouped(cfg)|
      ensures |Recent(Grouped(cfg)[..i + 1], Grouped(cfg)[i] - cfg.hardWindow)| < cfg.hardThreshold
    {
      GroupedIsSparse(cfg, i);
    }
    SparseShows(cfg, Grouped(cfg));
  }

  /** Exactly the configurations whose verdicts are always those of their windows. */
  lemma {:induction false} VerdictsRightIff(cfg: Config)
    ensures VerdictsRight(cfg) <==> SoftCounted(cfg) || HardHides(cfg)
  {
    if SoftCounted(cfg) {
      CountedIsHonoured(cfg);
    } else if HardHides(cfg) {
      HiddenIsRight(cfg);
    } else if cfg.hardThreshold <= 0 || cfg.hardWindow < 0 || cfg.hardBan < cfg.softBackoff
              || (2 <= cfg.hardThreshold && cfg.softThreshold <= cfg.hardThreshold) {
      EarlyOneShows(cfg);
    } else if cfg.hardBan < cfg.softWindow + cfg.softBackoff {
      LateOneShows(cfg);
    } else {
      GroupsShow(cfg);
    }
  }
}
