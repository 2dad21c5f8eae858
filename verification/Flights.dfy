/**
  The replacements under way in internal/torpool/health.go and the flags that
  keep them apart. A replacement holds the flag object it was started with, and
  ForgetPort throws the current one away, so flag objects are numbered.
 */
module Flights {

  /** One replacement goroutine, with the flag it set. */
  datatype Replacement = Replacement(port: int, flag: nat)

  /** The flag objects: current ones by port, the raised ones, and the next unused number. */
  datatype Flags = Flags(current: map<int, nat>, raised: set<nat>, next: nat) {
    /** The port's flag exists and is raised. */
    predicate Busy(port: int) { port in current && current[port] in raised }
  }

  /** Flags, running replacements, and by port the flags that were thrown away. */
  datatype Air = Air(flags: Flags, running: set<Replacement>, discarded: map<int, set<nat>>)

  function DiscardedOf(a: Air, port: int): set<nat> {
    if port in a.discarded then a.discarded[port] else {}
  }

  /** All flags the port ever had. */
  function FlagsOf(a: Air, port: int): set<nat> {
    DiscardedOf(a, port) + if port in a.flags.current then {a.flags.current[port]} else {}
  }

  /** The replacements of port that are under way. */
  function InFlight(running: set<Replacement>, port: int): set<Replacement> {
    set r | r in running && r.port == port
  }

  /** The port was forgotten since the replacement started: its flag is no longer the port's. */
  predicate Orphan(a: Air, r: Replacement) { r.flag in DiscardedOf(a, r.port) }

  /** A flag belongs to one port, and is either its current one or discarded. */
  ghost predicate FlagsOk(a: Air) {
    && (forall p, x | x in FlagsOf(a, p) :: x < a.flags.next)
    && (forall p, q, x | x in FlagsOf(a, p) && x in FlagsOf(a, q) :: p == q)
    && (forall p | p in a.flags.current :: a.flags.current[p] !in DiscardedOf(a, p))
  }

  /** The raised flags are those of the running replacements, one each. */
  ghost predicate RunningOk(a: Air) {
    && (forall r | r in a.running :: r.flag in a.flags.raised && r.flag in FlagsOf(a, r.port))
    && (forall r, q | r in a.running && q in a.running && r.flag == q.flag :: r == q)
    && (forall x | x in a.flags.raised :: exists r :: r in a.running && r.flag == x)
  }

  ghost predicate AirOk(a: Air) { FlagsOk(a) && RunningOk(a) }

  // ------------------------------------------------------------------
  // The steps.

  /** The port's flag is created on first use. */
  function Equipped(a: Air, port: int): Air {
    if port in a.flags.current then a
    else a.(flags := Flags(a.flags.current[port := a.flags.next], a.flags.raised, a.flags.next + 1))
  }

  function Started(a: Air, port: int): Air
    requires port in a.flags.current
  {
    var f := a.flags.current[port];
    a.(flags := a.flags.(raised := a.flags.raised + {f}), running := a.running + {Replacement(port, f)})
  }

  function Ended(a: Air, r: Replacement): Air {
    a.(flags := a.flags.(raised := a.flags.raised - {r.flag}), running := a.running - {r})
  }

  function Forgotten(a: Air, port: int): Air {
    if port in a.flags.current then
      a.(flags := a.flags.(current := a.flags.current - {port}),
         discarded := a.discarded[port := DiscardedOf(a, port) + {a.flags.current[port]}])
    else a
  }

  lemma {:induction false} EquippedFlags(a: Air, port: int, p: int)
    ensures DiscardedOf(Equipped(a, port), p) == DiscardedOf(a, p) && DiscardedOf(a, p) <= FlagsOf(a, p)
    ensures FlagsOf(Equipped(a, port), p) ==
              FlagsOf(a, p) + if p == port && p !in a.flags.current then {a.flags.next} else {}
  {}

  lemma {:induction false} EquipKeepsFlags(a: Air, port: int)
    requires FlagsOk(a)
    ensures FlagsOk(Equipped(a, port))
    ensures forall p :: FlagsOf(a, p) <= FlagsOf(Equipped(a, port), p)
  {
    var b := Equipped(a, port);
    forall p, x | x in FlagsOf(b, p)
      ensures x < b.flags.next
    {
      EquippedFlags(a, port, p);
    }
    forall p, q, x | x in FlagsOf(b, p) && x in FlagsOf(b, q)
      ensures p == q
    {
      EquippedFlags(a, port, p);
      EquippedFlags(a, port, q);
    }
    forall p
      ensures FlagsOf(a, p) <= FlagsOf(b, p) && (p in b.flags.current ==> b.flags.current[p] !in DiscardedOf(b, p))
    {
      EquippedFlags(a, port, p);
    }
  }

  lemma {:induction false} EquipKeepsAir(a: Air, port: int)
    requires AirOk(a)
    ensures AirOk(Equipped(a, port))
    ensures Equipped(a, port).flags.Busy(port) == a.flags.Busy(port)
  {
    EquipKeepsFlags(a, port);
    forall x | x in a.flags.raised
      ensures x < a.flags.next
    {
      var r :| r in a.running && r.flag == x;
      assert r.flag in FlagsOf(a, r.port);
    }
  }

  lemma {:induction false} StartKeepsAir(a: Air, port: int)
    requires AirOk(a) && port in a.flags.current && a.flags.current[port] !in a.flags.raised
    ensures AirOk(Started(a, port)) && Replacement(port, a.flags.current[port]) !in a.running
  {
    var b := Started(a, port);
    forall p ensures FlagsOf(b, p) == FlagsOf(a, p) {}
    assert FlagsOk(b);
    forall x | x in b.flags.raised
      ensures exists r :: r in b.running && r.flag == x
    {
      if x == a.flags.current[port] {
        assert Replacement(port, x) in b.running;
      } else {
        var r :| r in a.running && r.flag == x;
        assert r in b.running;
      }
    }
  }

  lemma {:induction false} EndKeepsAir(a: Air, r: Replacement)
    requires AirOk(a) && r in a.running
    ensures AirOk(Ended(a, r))
  {
    var b := Ended(a, r);
    forall p ensures FlagsOf(b, p) == FlagsOf(a, p) {}
    assert FlagsOk(b);
    forall x | x in b.flags.raised
      ensures exists q :: q in b.running && q.flag == x
    {
      var q :| q in a.running && q.flag == x;
      assert q in b.running;
    }
  }

  /** Forgetting a port makes orphans of all its replacements and of no others. */
  lemma {:induction false} ForgetKeepsAir(a: Air, port: int)
    requires AirOk(a)
    ensures AirOk(Forgotten(a, port))
    ensures forall r | r in a.running :: Orphan(Forgotten(a, port), r) <==> Orphan(a, r) || r.port == port
  {
    var b := Forgotten(a, port);
    forall p ensures FlagsOf(b, p) == FlagsOf(a, p) {}
    assert FlagsOk(b);
    forall r | r in a.running
      ensures Orphan(b, r) <==> Orphan(a, r) || r.port == port
    {
      assert r.flag in FlagsOf(a, r.port);
    }
  }

  // ------------------------------------------------------------------
  // What the flags say.

  /** A port is busy exactly when it has a replacement under way that is no orphan. */
  lemma {:induction false} BusyIff(a: Air, port: int)
    requires AirOk(a)
    ensures a.flags.Busy(port) <==> exists r :: r in a.running && r.port == port && !Orphan(a, r)
  {
    if a.flags.Busy(port) {
      var f := a.flags.current[port];
      var r :| r in a.running && r.flag == f;
      assert f in FlagsOf(a, port) && r.flag in FlagsOf(a, r.port);
    }
    if r :| r in a.running && r.port == port && !Orphan(a, r) {
      assert r.flag in FlagsOf(a, r.port);
    }
  }

  /** replaceAsync: one more replacement unless the port's flag is raised. */
  function Replacing(a: Air, port: int): Air {
    if a.flags.Busy(port) then a else Started(Equipped(a, port), port)
  }

  /** The port's flag is loaded or made, and set by compare-and-swap; whoever set it runs. */
  method RaiseFlag(flags: Flags, running: set<Replacement>, port: int, ghost discarded: map<int, set<nat>>)
    returns (started: bool, flags': Flags, running': set<Replacement>)
    ensures started == !flags.Busy(port)
    ensures Air(flags', running', discarded) == Replacing(Air(flags, running, discarded), port)
  {
    flags', running' := flags, running;
    var current := if port in flags.current then flags.current[port] else flags.next;
    started := current !in flags.raised || port !in flags.current;
    if started {
      if port !in flags.current {
        flags' := Flags(flags.current[port := current], flags.raised, flags.next + 1);
      }
      flags' := flags'.(raised := flags'.raised + {current});
      running' := running + {Replacement(port, current)};
    }
  }

  lemma {:induction false} ReplacingKeepsAir(a: Air, port: int)
    requires AirOk(a)
    ensures AirOk(Replacing(a, port)) && Replacing(a, port).discarded == a.discarded
  {
    if !a.flags.Busy(port) {
      EquipKeepsAir(a, port);
      StartKeepsAir(Equipped(a, port), port);
    }
  }

  /** A replacement that starts is a new one. */
  lemma {:induction false} StartsAnew(a: Air, port: int)
    requires AirOk(a) && !a.flags.Busy(port)
    ensures var b := Replacing(a, port);
            && port in b.flags.current && Replacement(port, b.flags.current[port]) !in a.running
            && b.running == a.running + {Replacement(port, b.flags.current[port])}
  {
    EquipKeepsAir(a, port);
    StartKeepsAir(Equipped(a, port), port);
  }

  /**
    A replacement starts exactly when every one still under way for the port is
    an orphan: the port has been forgotten since it started.
   */
  lemma {:induction false} StartsIff(a: Air, port: int)
    requires AirOk(a)
    ensures Replacing(a, port) != a <==> forall r | r in a.running && r.port == port :: Orphan(a, r)
  {
    BusyIff(a, port);
    if !a.flags.Busy(port) {
      StartsAnew(a, port);
    }
  }

  lemma {:induction false} FlagsCount(rs: set<Replacement>, flags: set<nat>)
    requires forall r, q | r in rs && q in rs && r.flag == q.flag :: r == q
    requires forall r | r in rs :: r.flag in flags
    requires forall x | x in flags :: exists r :: r in rs && r.flag == x
    ensures |rs| == |flags|
    decreases rs
  {
    if rs == {} {
      assert flags == {};
    } else {
      var r :| r in rs;
      forall x | x in flags - {r.flag}
        ensures exists q :: q in rs - {r} && q.flag == x
      {
        var q :| q in rs && q.flag == x;
        assert q in rs - {r};
      }
      FlagsCount(rs - {r}, flags - {r.flag});
    }
  }

  /** Exactly as many replacements of a port are in flight as flags of the port are raised. */
  lemma {:induction false} InFlightCount(a: Air, port: int)
    requires AirOk(a)
    ensures |InFlight(a.running, port)| == |a.flags.raised * FlagsOf(a, port)|
    ensures |InFlight(a.running, port)| <= 1 + |DiscardedOf(a, port)|
  {
    var rs, flags := InFlight(a.running, port), a.flags.raised * FlagsOf(a, port);
    forall x | x in flags
      ensures exists r :: r in rs && r.flag == x
    {
      var r :| r in a.running && r.flag == x;
      assert r.flag in FlagsOf(a, r.port) && x in FlagsOf(a, port);
      assert r in rs;
    }
    FlagsCount(rs, flags);
    Within(flags, FlagsOf(a, port));
  }

  lemma {:induction false} Within(a: set<nat>, b: set<nat>)
    requires a <= b
    ensures |a| <= |b|
    decreases a
  {
    if a != {} {
      var x :| x in a;
      Within(a - {x}, b - {x});
    }
  }
}
