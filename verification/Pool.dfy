/**
  The Tor pool manager of internal/torpool/manager.go: instances are spawned on
  SOCKS ports, scaled, replaced and shut down. Whether a spawn succeeds is an
  oracle on the port. Scores are those of internal/shared/types.go, over reals.
 */
module Pool {
  import opened Sorting

  /** Counters and gauges are 64-bit integers. */
  type Int64 = x: int | -0x8000_0000_0000_0000 <= x < 0x8000_0000_0000_0000

  datatype Instance = Instance(
    port: int, backend: string, alive: bool,
    activeConns: Int64, latencyMs: Int64, errorCount: Int64, totalCount: Int64)

  function Fresh(port: int, backend: string): Instance { Instance(port, backend, true, 0, 0, 0, 0) }

  const MAX_FLOAT64: real :=
    179769313486231570814527423731704356798070567525844996598917476803157260780028538760589558632766878171540458953514382464234321326889464182768467546703537516986049910576551282076245490090389328944075868508455133942304583236903222948165808559332123347764797826204144723168738177180919299881250404026184124858368.0

  function ErrorRate(i: Instance): real {
    if i.totalCount > 0 then i.errorCount as real / i.totalCount as real else 0.0
  }

  /** BackendInfo.Score: lower is better; a dead instance scores worse than every live one. */
  function ScoreOf(alive: bool, activeConns: int, latencyMs: int, errorRate: real): real {
    if !alive then MAX_FLOAT64
    else (activeConns * 2) as real + latencyMs as real / 100.0 + errorRate * 10.0
  }

  function Score(i: Instance): real { ScoreOf(i.alive, i.activeConns, i.latencyMs, ErrorRate(i)) }

  lemma Product(a: real, b: real)
    requires a >= 0.0 && b >= 0.0
    ensures a * b >= 0.0
  {}

  lemma {:induction false} RateBound(e: Int64, t: Int64)
    requires t > 0
    ensures e as real / t as real <= 9223372036854775808.0
  {
    var q := e as real / t as real;
    assert q * t as real == e as real;
    if q > 0.0 {
      Product(q, t as real - 1.0);
      assert q * (t as real - 1.0) == q * t as real - q;
    }
  }

  lemma {:induction false} AliveScoresBetter(a: Instance, d: Instance)
    requires a.alive && !d.alive
    ensures Score(a) < Score(d)
  {
    if a.totalCount > 0 {
      RateBound(a.errorCount, a.totalCount);
    }
  }

  /** A hundred times the score of a live backend: 200 a connection, 1 a millisecond, 1000 times the failure rate. */
  lemma {:induction false} ScoreCounts(conns: int, latencyMs: int, rate: real)
    ensures ScoreOf(true, conns, latencyMs, rate) * 100.0 == (200 * conns + latencyMs) as real + 1000.0 * rate
  {}

  /** The share of failed uses, and none where there was no use. */
  lemma {:induction false} RateIs(i: Instance)
    ensures i.totalCount > 0 ==> ErrorRate(i) * i.totalCount as real == i.errorCount as real
    ensures i.totalCount <= 0 ==> ErrorRate(i) == 0.0
  {}

  // ------------------------------------------------------------------
  // The invariant.

  datatype Config = Config(minInstances: int, maxInstances: int, basePort: int, minOnStart: int, backends: seq<string>)

  /** What the configuration check enforces for the pool. */
  predicate ConfigOk(c: Config) {
    && 0 < c.minInstances <= c.maxInstances
    && c.basePort > 0 && c.basePort + c.maxInstances < 65535
  }

  ghost predicate DistinctPorts(s: seq<Instance>) {
    forall i, j | 0 <= i < j < |s| :: s[i].port != s[j].port
  }

  ghost predicate PortsWithin(s: seq<Instance>, lo: int, hi: int) {
    forall i | 0 <= i < |s| :: lo <= s[i].port < hi
  }

  function Ports(s: seq<Instance>): set<int> { set i | 0 <= i < |s| :: s[i].port }

  ghost predicate PoolOk(c: Config, s: seq<Instance>) {
    && DistinctPorts(s) && |s| <= c.maxInstances
    && PortsWithin(s, c.basePort, c.basePort + c.maxInstances)
  }

  lemma {:induction false} PortsCount(s: seq<Instance>)
    ensures |Ports(s)| <= |s|
  {
    if s != [] {
      var p := s[..|s| - 1];
      PortsCount(p);
      assert Ports(s) == Ports(p) + {s[|s| - 1].port} by {
        forall x | x in Ports(s) ensures x in Ports(p) + {s[|s| - 1].port} {
          var i :| 0 <= i < |s| && s[i].port == x;
          assert i < |p| ==> p[i].port == x;
        }
        forall x | x in Ports(p) ensures x in Ports(s) {
          var i :| 0 <= i < |p| && p[i].port == x;
          assert s[i].port == x;
        }
      }
    }
  }

  /** A run of consecutive used ports is no longer than the set of used ports. */
  lemma {:induction false} RunFits(used: set<int>, lo: int, hi: int)
    requires lo <= hi && forall p | lo <= p < hi :: p in used
    ensures hi - lo <= |used|
    decreases hi - lo
  {
    if lo < hi {
      RunFits(used - {hi - 1}, lo, hi - 1);
    }
  }

  // ------------------------------------------------------------------
  // Sorting by score.

  function ByScore(score: Instance -> real): (Instance, Instance) -> bool {
    (a, b) => score(a) <= score(b)
  }

  ghost predicate Ranked(score: Instance -> real, s: seq<Instance>) {
    forall i, j | 0 <= i < j < |s| :: score(s[i]) <= score(s[j])
  }

  /** Ascending by score. */
  method SortBy(score: Instance -> real, s: seq<Instance>) returns (r: seq<Instance>)
    ensures multiset(r) == multiset(s) && |r| == |s| && Ranked(score, r)
  {
    r := Sort(ByScore(score), s);
    SortSorts(ByScore(score), s);
    assert forall i, j | 0 <= i < j < |r| :: ByScore(score)(r[i], r[j]);
  }

  // ------------------------------------------------------------------
  // Shrinking.

  /** Every live instance scores better than every dead one. */
  ghost predicate DeadLast(score: Instance -> real) {
    forall a: Instance, d: Instance | a.alive && !d.alive :: score(a) < score(d)
  }

  lemma {:induction false} ScoreIsDeadLast()
    ensures DeadLast(Score)
  {
    forall a: Instance, d: Instance | a.alive && !d.alive
      ensures Score(a) < Score(d)
    {
      AliveScoresBetter(a, d);
    }
  }

  /** No killed instance is better than a kept one, and none is alive while a dead one is kept. */
  ghost predicate WorstGoFirst(score: Instance -> real, kept: seq<Instance>, killed: seq<Instance>) {
    forall i, j | 0 <= i < |kept| && 0 <= j < |killed| ::
      score(kept[i]) <= score(killed[j]) && (killed[j].alive ==> kept[i].alive)
  }

  function PortList(s: seq<Instance>): seq<int> { seq(|s|, i requires 0 <= i < |s| => s[i].port) }

  lemma {:induction false} SplitWorst(score: Instance -> real, s: seq<Instance>, n: nat)
    requires Ranked(score, s) && DeadLast(score) && n <= |s|
    ensures WorstGoFirst(score, s[..n], s[n..])
  {
    forall i, j | 0 <= i < n && 0 <= j < |s| - n
      ensures s[n..][j].alive ==> s[..n][i].alive
      ensures score(s[..n][i]) <= score(s[n..][j])
    {
      assert s[n..][j] == s[n + j];
      assert score(s[i]) <= score(s[n + j]);
    }
  }

  lemma {:induction false} PermutationKeepsDistinct(a: seq<Instance>, b: seq<Instance>)
    requires multiset(a) == multiset(b) && DistinctPorts(a)
    ensures DistinctPorts(b)
  {
    forall i, j | 0 <= i < j < |b|
      ensures b[i].port != b[j].port
    {
      assert b[i] in multiset(a) && b[j] in multiset(a);
      var k :| 0 <= k < |a| && a[k] == b[i];
      var l :| 0 <= l < |a| && a[l] == b[j];
      OneOccurrence(a, k);
      if k == l {
        TwoOccurrences(b, i, j);
      }
    }
  }

  lemma {:induction false} TwoOccurrences(b: seq<Instance>, i: nat, j: nat)
    requires i < j < |b| && b[i] == b[j]
    ensures multiset(b)[b[i]] >= 2
  {
    assert b == b[..i] + [b[i]] + b[i + 1..j] + [b[j]] + b[j + 1..];
  }

  lemma {:induction false} OneOccurrence(a: seq<Instance>, k: nat)
    requires k < |a| && DistinctPorts(a)
    ensures multiset(a)[a[k]] == 1
  {
    assert a == a[..k] + [a[k]] + a[k + 1..];
    assert a[k] !in a[..k] && a[k] !in a[k + 1..];
  }

  // ------------------------------------------------------------------
  // Growing.

  /** The first port at or above base that is not used. The search ends because used is finite. */
  method FreePort(base: int, used: set<int>) returns (port: int)
    ensures port >= base && port !in used && forall p | base <= p < port :: p in used
    ensures port - base <= |used|
  {
    port := base;
    RunFits(used, base, base);
    while port in used
      invariant port >= base && port - base <= |used|
      invariant forall p | base <= p < port :: p in used
      decreases |used| - (port - base)
    {
      RunFits(used, base, port + 1);
      port := port + 1;
    }
  }

  function BackendFor(backends: seq<string>, k: nat): string {
    if |backends| > 0 then backends[k % |backends|] else ""
  }

  /** A new instance: up, unused, on this port and for the k-th backend in turn. */
  ghost predicate Newborn(x: Instance, port: int, backends: seq<string>, k: nat) {
    && x.port == port && x.alive && x.activeConns == x.latencyMs == x.errorCount == x.totalCount == 0
    && x.backend == if backends == [] then "" else backends[k % |backends|]
  }

  /** From there on all are new, with the backends in turn from the port on. */
  ghost predicate AllNewborn(backends: seq<string>, s: seq<Instance>, from: nat, port: int) {
    forall i | from <= i < |s| :: s[i].port >= port && Newborn(s[i], s[i].port, backends, s[i].port - port)
  }

  lemma {:induction false} NewbornAppend(backends: seq<string>, s: seq<Instance>, from: nat, port: int, p: int)
    requires AllNewborn(backends, s, from, port) && p >= port
    ensures AllNewborn(backends, s + [Fresh(p, BackendFor(backends, p - port))], from, port)
  {}

  lemma {:induction false} NewbornShift(backends: seq<string>, s: seq<Instance>, up: seq<Instance>, port: int)
    requires AllNewborn(backends, up, 0, port)
    ensures AllNewborn(backends, s + up, |s|, port)
  {
    assert forall i | |s| <= i < |s + up| :: (s + up)[i] == up[i - |s|];
  }

  lemma {:induction false} AppendKeepsPool(c: Config, s: seq<Instance>, x: Instance)
    requires PoolOk(c, s) && |s| < c.maxInstances
    requires c.basePort <= x.port < c.basePort + c.maxInstances && x.port !in Ports(s)
    ensures PoolOk(c, s + [x])
  {
    assert forall i | 0 <= i < |s| :: s[i].port in Ports(s);
  }

  datatype Outcome = Done | ShuttingDown | Cancelled | NoInstance | SpawnFailed(port: int) | TooFew

  class Manager {
    const cfg: Config
    const hasForgetter: bool
    var instances: seq<Instance>
    var shuttingDown: bool
    /** The ports the health checker was told to forget, oldest first. */
    var forgotten: seq<int>

    ghost predicate Valid()
      reads this
    {
      ConfigOk(cfg) && PoolOk(cfg, instances)
    }

    constructor (cfg: Config, hasForgetter: bool)
      requires ConfigOk(cfg)
      ensures Valid() && this.cfg == cfg && instances == [] && !shuttingDown && forgotten == []
    {
      this.cfg, this.hasForgetter := cfg, hasForgetter;
      instances, shuttingDown, forgotten := [], false, [];
    }

    /**
      Boot: spawn one instance on each of the first minInstances ports, and keep
      them if enough came up. Start is meant for an empty pool; on any other the
      ports stay distinct exactly when none of the new ones was already taken.
     */
    method Start(cancelled: bool, spawn: int -> bool) returns (o: Outcome)
      requires ConfigOk(cfg)
      modifies this`instances
      ensures o == Done || o == Cancelled || o == TooFew
      ensures cancelled ==> o == Cancelled
      ensures o != Done ==> instances == old(instances)
      ensures o == Done ==> |old(instances)| <= |instances| && instances[..|old(instances)|] == old(instances)
      ensures o == Done ==>
                Ports(instances[|old(instances)|..]) ==
                set p | cfg.basePort <= p < cfg.basePort + cfg.minInstances && spawn(p)
      ensures o == Done ==> (DistinctPorts(old(instances)) ==>
                (DistinctPorts(instances) <==> Ports(old(instances)) !! Ports(instances[|old(instances)|..])))
      ensures old(instances) == [] ==> Valid()
      ensures old(Valid()) && o == Done ==> (Valid() <==> Ports(old(instances)) !! Ports(instances[|old(instances)|..]))
      // at least minOnStart of them, one if that is not positive and all if it is more than that
      ensures !cancelled ==>
                (o == Done <==>
                 |set p | cfg.basePort <= p < cfg.basePort + cfg.minInstances && spawn(p)| >=
                   if cfg.minOnStart <= 0 then 1
                   else if cfg.minOnStart > cfg.minInstances then cfg.minInstances else cfg.minOnStart)
      ensures o == Done ==> AllNewborn(cfg.backends, instances, |old(instances)|, cfg.basePort) == true
    {
      var up := Boot(spawn);
      DistinctCount(up);
      if cancelled {
        return Cancelled;
      }
      var minOk := cfg.minOnStart;
      if minOk <= 0 {
        minOk := 1;
      }
      if minOk > cfg.minInstances {
        minOk := cfg.minInstances;
      }
      if |up| < minOk {
        return TooFew;
      }
      AppendDistinct(instances, up);
      AppendFits(cfg, instances, up);
      NewbornShift(cfg.backends, instances, up, cfg.basePort);
      instances := instances + up;
      assert instances[|old(instances)|..] == up;
      return Done;
    }

    /** The successful spawns of the boot sequence, in port order. */
    method Boot(spawn: int -> bool) returns (up: seq<Instance>)
      requires ConfigOk(cfg)
      ensures PoolOk(cfg, up)
      ensures Ports(up) == set p | cfg.basePort <= p < cfg.basePort + cfg.minInstances && spawn(p)
      ensures AllNewborn(cfg.backends, up, 0, cfg.basePort) == true
    {
      up := [];
      for i := 0 to cfg.minInstances
        invariant |up| <= i && DistinctPorts(up) && PortsWithin(up, cfg.basePort, cfg.basePort + i)
        invariant Ports(up) == set p | cfg.basePort <= p < cfg.basePort + i && spawn(p)
        invariant AllNewborn(cfg.backends, up, 0, cfg.basePort) == true
      {
        var port := cfg.basePort + i;
        if spawn(port) {
          ghost var before := up;
          NewbornAppend(cfg.backends, up, 0, cfg.basePort, port);
          up := up + [Fresh(port, BackendFor(cfg.backends, i))];
          PortsAppend(before, Fresh(port, BackendFor(cfg.backends, i)));
        }
      }
    }

    static function Clamped(c: Config, target: int): int {
      var t := if target < c.minInstances then c.minInstances else target;
      if c.maxInstances > 0 && t > c.maxInstances then c.maxInstances else t
    }

    /** doMutation and scaleToLocked, holding the operation lock. */
    method ScaleTo(target: int, cancelled: bool, spawn: int -> bool) returns (o: Outcome, ghost killed: seq<Instance>)
      requires Valid()
      modifies this`instances, this`forgotten
      ensures Valid()
      ensures shuttingDown ==> o == ShuttingDown
      ensures !shuttingDown && cancelled ==> o == Cancelled
      ensures o == ShuttingDown || o == Cancelled ==> instances == old(instances)
      ensures o == Done ==> |instances| == Clamped(cfg, target)
      ensures o == Done ==>
                |instances| == if target < cfg.minInstances then cfg.minInstances
                               else if target > cfg.maxInstances then cfg.maxInstances else target
      ensures !o.NoInstance? && !o.TooFew?
      ensures o.SpawnFailed? ==> !spawn(o.port) && o.port !in Ports(instances) && |instances| < Clamped(cfg, target)
      // shrinking
      ensures killed != [] ==>
                && o == Done && multiset(instances) + multiset(killed) == multiset(old(instances))
                && WorstGoFirst(Score, instances, killed)
      ensures forgotten == old(forgotten) + if hasForgetter then PortList(killed) else []
      ensures o == Done && |old(instances)| > Clamped(cfg, target) ==>
                |killed| == |old(instances)| - Clamped(cfg, target)
      // growing
      ensures killed == [] ==> old(instances) <= instances
      ensures killed == [] ==> AllNewborn(cfg.backends, instances, |old(instances)|, 0) == true
    {
      killed := [];
      o := Done;
      assert PortList([]) == [];
      if shuttingDown {
        return ShuttingDown, [];
      }
      if cancelled {
        return Cancelled, [];
      }
      var t := Clamped(cfg, target);
      if t < |instances| {
        killed := Shrink(t);
      } else if t > |instances| {
        o := Grow(t, spawn);
      }
    }

    method Shrink(t: nat) returns (killed: seq<Instance>)
      requires Valid() && t < |instances|
      modifies this`instances, this`forgotten
      ensures Valid() && |instances| == t && |killed| == |old(instances)| - t
      ensures multiset(instances) + multiset(killed) == multiset(old(instances))
      ensures WorstGoFirst(Score, instances, killed)
      ensures forgotten == old(forgotten) + if hasForgetter then PortList(killed) else []
    {
      var sorted := SortBy(Score, instances);
      PermutationKeepsDistinct(instances, sorted);
      PermutationKeepsRange(instances, sorted, cfg.basePort, cfg.basePort + cfg.maxInstances);
      ScoreIsDeadLast();
      SplitWorst(Score, sorted, t);
      killed := sorted[t..];
      instances := sorted[..t];
      assert sorted == instances + killed;
      var i := 0;
      while i < |killed|
        invariant 0 <= i <= |killed| && instances == sorted[..t]
        invariant forgotten == old(forgotten) + if hasForgetter then PortList(killed)[..i] else []
      {
        if hasForgetter {
          forgotten := forgotten + [killed[i].port];
        }
        i := i + 1;
      }
      assert PortList(killed)[..|killed|] == PortList(killed);
    }

    method Grow(t: nat, spawn: int -> bool) returns (o: Outcome)
      requires Valid() && |instances| < t <= cfg.maxInstances
      modifies this`instances
      ensures Valid() && (o == Done || o.SpawnFailed?)
      ensures old(instances) <= instances
      ensures o == Done ==> |instances| == t
      ensures o.SpawnFailed? ==> !spawn(o.port) && o.port !in Ports(instances) && |instances| < t
      ensures AllNewborn(cfg.backends, instances, |old(instances)|, 0) == true
    {
      var used := Ports(instances);
      while |instances| < t
        invariant Valid() && |instances| <= t && used == Ports(instances)
        invariant old(instances) <= instances
        invariant AllNewborn(cfg.backends, instances, |old(instances)|, 0) == true
        decreases t - |instances|
      {
        PortsCount(instances);
        var port := FreePort(cfg.basePort, used);
        if !spawn(port) {
          return SpawnFailed(port);
        }
        var x := Fresh(port, BackendFor(cfg.backends, port));
        AppendKeepsPool(cfg, instances, x);
        PortsAppend(instances, x);
        NewbornAppend(cfg.backends, instances, |old(instances)|, 0, port);
        used := used + {port};
        instances := instances + [x];
      }
      return Done;
    }

    /** Kill the instance on port and spawn another there. A failed spawn leaves the port out of the pool. */
    method ReplaceInstance(port: int, cancelled: bool, spawnOk: bool) returns (o: Outcome)
      requires Valid()
      modifies this`instances
      ensures Valid()
      ensures shuttingDown ==> o == ShuttingDown
      ensures !shuttingDown && cancelled ==> o == Cancelled
      ensures !shuttingDown && !cancelled ==>
                o == if port !in Ports(old(instances)) then NoInstance else if spawnOk then Done else SpawnFailed(port)
      ensures !o.Done? && !o.SpawnFailed? ==> instances == old(instances)
      ensures o.SpawnFailed? ==>
                Ports(instances) == Ports(old(instances)) - {port} && |instances| == |old(instances)| - 1
      ensures o == Done ==>
                && Ports(instances) == Ports(old(instances)) && |instances| == |old(instances)|
                && exists k | 0 <= k < |old(instances)| :: old(instances)[k].port == port
                     && instances == Without(old(instances), k) + [Fresh(port, old(instances)[k].backend)]
      ensures o == Done ==>
                instances != [] && Newborn(instances[|instances| - 1], port, [instances[|instances| - 1].backend], 0)
    {
      if shuttingDown {
        return ShuttingDown;
      }
      if cancelled {
        return Cancelled;
      }
      var idx := 0;
      while idx < |instances| && instances[idx].port != port
        invariant 0 <= idx <= |instances|
        invariant forall j | 0 <= j < idx :: instances[j].port != port
      {
        idx := idx + 1;
      }
      if idx == |instances| {
        return NoInstance;
      }
      var dead := instances[idx];
      assert dead.port in Ports(instances);
      WithoutKeepsPool(cfg, instances, idx);
      instances := Without(instances, idx);
      if !spawnOk {
        return SpawnFailed(port);
      }
      AppendKeepsPool(cfg, instances, Fresh(port, dead.backend));
      PortsAppend(instances, Fresh(port, dead.backend));
      instances := instances + [Fresh(port, dead.backend)];
      return Done;
    }

    /** The health checker and the proxies update the gauges of an instance at any time. */
    method Measure(k: nat, m: Instance)
      requires Valid() && k < |instances|
      modifies this`instances
      ensures Valid() && |instances| == |old(instances)|
      ensures forall i | 0 <= i < |instances| ::
                instances[i] == if i == k then m.(port := old(instances)[k].port, backend := old(instances)[k].backend)
                                else old(instances)[i]
    {
      instances := instances[k := m.(port := instances[k].port, backend := instances[k].backend)];
    }

    method Shutdown()
      requires Valid()
      modifies this`instances, this`shuttingDown
      ensures Valid() && shuttingDown && instances == []
    {
      shuttingDown := true;
      instances := [];
    }
  }

  function Without(s: seq<Instance>, k: nat): seq<Instance>
    requires k < |s|
  {
    s[..k] + s[k + 1..]
  }

  lemma {:induction false} WithoutKeepsPool(c: Config, s: seq<Instance>, k: nat)
    requires PoolOk(c, s) && k < |s|
    ensures PoolOk(c, Without(s, k)) && Ports(Without(s, k)) == Ports(s) - {s[k].port}
  {
    var r := Without(s, k);
    assert forall i | 0 <= i < |r| :: r[i] == s[if i < k then i else i + 1];
    forall p | p in Ports(s) - {s[k].port}
      ensures p in Ports(r)
    {
      var i :| 0 <= i < |s| && s[i].port == p;
      assert r[if i < k then i else i - 1].port == p;
    }
  }

  lemma {:induction false} PortsAppend(s: seq<Instance>, x: Instance)
    ensures Ports(s + [x]) == Ports(s) + {x.port}
  {
    var r := s + [x];
    assert r[|s|].port == x.port;
    forall p | p in Ports(s)
      ensures p in Ports(r)
    {
      var i :| 0 <= i < |s| && s[i].port == p;
      assert r[i].port == p;
    }
  }

  lemma {:induction false} PermutationKeepsRange(a: seq<Instance>, b: seq<Instance>, lo: int, hi: int)
    requires multiset(a) == multiset(b) && PortsWithin(a, lo, hi)
    ensures PortsWithin(b, lo, hi)
  {
    forall i | 0 <= i < |b|
      ensures lo <= b[i].port < hi
    {
      assert b[i] in multiset(a);
    }
  }

  lemma {:induction false} RangeCount(ports: set<int>, lo: int, hi: int)
    requires lo <= hi && forall p | p in ports :: lo <= p < hi
    ensures |ports| <= hi - lo
    decreases hi - lo
  {
    if lo < hi {
      RangeCount(ports - {hi - 1}, lo, hi - 1);
    } else {
      assert forall p :: p !in ports;
      assert ports == {};
    }
  }

  lemma {:induction false} DistinctCount(s: seq<Instance>)
    requires DistinctPorts(s)
    ensures |Ports(s)| == |s|
    decreases |s|
  {
    if s != [] {
      var before, x := s[..|s| - 1], s[|s| - 1];
      DistinctCount(before);
      PortsAppend(before, x);
      assert s == before + [x] && x.port !in Ports(before);
    }
  }

  /** Distinct ports of the range are never more than the pool may hold. */
  lemma {:induction false} AppendFits(c: Config, a: seq<Instance>, b: seq<Instance>)
    requires ConfigOk(c) && PoolOk(c, b)
    ensures PoolOk(c, a) && DistinctPorts(a + b) ==> PoolOk(c, a + b)
  {
    if PoolOk(c, a) && DistinctPorts(a + b) {
      DistinctCount(a + b);
      RangeCount(Ports(a + b), c.basePort, c.basePort + c.maxInstances);
    }
  }

  lemma {:induction false} AppendDistinct(a: seq<Instance>, b: seq<Instance>)
    requires DistinctPorts(b)
    ensures DistinctPorts(a) ==> (DistinctPorts(a + b) <==> Ports(a) !! Ports(b))
  {
    var r := a + b;
    if Ports(a) !! Ports(b) {
      assert forall i, j | 0 <= i < |a| && 0 <= j < |b| :: a[i].port in Ports(a) && b[j].port in Ports(b);
    }
    if !(Ports(a) !! Ports(b)) {
      var p :| p in Ports(a) && p in Ports(b);
      var i :| 0 <= i < |a| && a[i].port == p;
      var j :| 0 <= j < |b| && b[j].port == p;
      assert r[i].port == r[|a| + j].port;
      assert !DistinctPorts(r);
    }
  }
}
