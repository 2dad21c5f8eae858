/**
  How mutations and shutdown of the Tor pool exclude each other:
  internal/torpool/manager.go, doMutation and Shutdown. Reading the flag, taking
  the operation lock, checking the flag again, changing the pool and releasing
  the lock are separate steps of any number of goroutines.
 */
module Shutdown {

  /** One goroutine inside doMutation. */
  datatype Phase = Outside | PastFirstCheck | Locked | Mutating

  /** One call of Shutdown. */
  datatype Teardown = NotCalled | FlagSet | Holding | Drained | Finished

  datatype Owner = Nobody | Mutator(id: nat) | Closer(id: nat)

  /** lateStarts: what boots have added since the last drain. */
  datatype System = System(
    flag: bool, lock: Owner, phases: map<nat, Phase>, calls: map<nat, Teardown>,
    pool: seq<int>, drained: bool, lateStarts: seq<int>)

  datatype Action =
    | Enter(id: nat)
    | Acquire(id: nat)
    | Recheck(id: nat, cancelled: bool)
    | Mutate(id: nat, pool: seq<int>)
    | Release(id: nat)
    | SetFlag(id: nat)
    | CloserAcquires(id: nat)
    | Drain(id: nat)
    | CloserReleases(id: nat)
    | StartAppends(ports: seq<int>)

  function PhaseOf(s: System, id: nat): Phase { if id in s.phases then s.phases[id] else Outside }

  function CallOf(s: System, id: nat): Teardown { if id in s.calls then s.calls[id] else NotCalled }

  function Next(s: System, a: Action): System {
    match a
    case Enter(id) =>
      if PhaseOf(s, id).Outside? && !s.flag then s.(phases := s.phases[id := PastFirstCheck]) else s
    case Acquire(id) =>
      if PhaseOf(s, id).PastFirstCheck? && s.lock.Nobody? then
        s.(lock := Mutator(id), phases := s.phases[id := Locked])
      else s
    case Recheck(id, cancelled) =>
      if !PhaseOf(s, id).Locked? then s
      else if s.flag || cancelled then s.(lock := Nobody, phases := s.phases[id := Outside])
      else s.(phases := s.phases[id := Mutating])
    case Mutate(id, pool) =>
      if PhaseOf(s, id).Mutating? then s.(pool := pool) else s
    case Release(id) =>
      if PhaseOf(s, id).Mutating? then s.(lock := Nobody, phases := s.phases[id := Outside]) else s
    case SetFlag(id) =>
      if CallOf(s, id).NotCalled? then s.(flag := true, calls := s.calls[id := FlagSet]) else s
    case CloserAcquires(id) =>
      if CallOf(s, id).FlagSet? && s.lock.Nobody? then s.(lock := Closer(id), calls := s.calls[id := Holding]) else s
    case Drain(id) =>
      if CallOf(s, id).Holding?
      then s.(pool := [], drained := true, lateStarts := [], calls := s.calls[id := Drained])
      else s
    case CloserReleases(id) =>
      if CallOf(s, id).Drained? then s.(lock := Nobody, calls := s.calls[id := Finished]) else s
    case StartAppends(ports) =>
      s.(pool := s.pool + ports, lateStarts := if s.drained then s.lateStarts + ports else s.lateStarts)
  }

  /** Goroutine k is inside the lock only as its owner. */
  ghost predicate Excluded(s: System, k: nat) {
    && (PhaseOf(s, k).Locked? || PhaseOf(s, k).Mutating? ==> s.lock == Mutator(k))
    && (CallOf(s, k).Holding? || CallOf(s, k).Drained? ==> s.lock == Closer(k))
    && (!CallOf(s, k).NotCalled? ==> s.flag)
    && (s.drained ==> !PhaseOf(s, k).Mutating?)
  }

  ghost predicate Inv(s: System) {
    && (forall k: nat :: Excluded(s, k))
    && (if s.drained then s.flag && s.pool == s.lateStarts else s.lateStarts == [])
  }

  lemma {:induction false} NextKeepsInv(s: System, a: Action)
    requires Inv(s)
    ensures Inv(Next(s, a))
  {
    var s' := Next(s, a);
    if !a.StartAppends? {
      assert Excluded(s, a.id);
    }
    forall k: nat
      ensures Excluded(s', k)
    {
      assert Excluded(s, k);
    }
  }

  function Start(pool: seq<int>): System { System(false, Nobody, map[], map[], pool, false, []) }

  function Run(pool: seq<int>, actions: seq<Action>): System {
    if actions == [] then Start(pool) else Next(Run(pool, actions[..|actions| - 1]), actions[|actions| - 1])
  }

  lemma {:induction false} EveryRunKeepsInv(pool: seq<int>, actions: seq<Action>)
    ensures Inv(Run(pool, actions))
    decreases actions
  {
    if actions != [] {
      EveryRunKeepsInv(pool, actions[..|actions| - 1]);
      NextKeepsInv(Run(pool, actions[..|actions| - 1]), actions[|actions| - 1]);
    }
  }

  /**
    Two goroutines never change the pool at once; and once a Shutdown has
    drained the pool it holds exactly what boots that had not finished have
    added to it since the last drain, because Start takes no part in the
    locking. It therefore stays empty if and only if no such late boot spawns
    anything.
   */
  lemma {:induction false} StaysEmptyUnlessStartIsLate(pool: seq<int>, actions: seq<Action>)
    ensures var s := Run(pool, actions);
            && (forall i, j | PhaseOf(s, i).Mutating? && PhaseOf(s, j).Mutating? :: i == j)
            && (s.drained ==> s.pool == s.lateStarts && forall id :: !PhaseOf(s, id).Mutating?)
  {
    EveryRunKeepsInv(pool, actions);
    var s := Run(pool, actions);
    forall i: nat
      ensures PhaseOf(s, i).Mutating? ==> s.lock == Mutator(i) && !s.drained
    {
      assert Excluded(s, i);
    }
  }

  /** Before a shutdown a mutation gets through. */
  lemma {:induction false} MutationGoesThrough(pool: seq<int>, id: nat, after: seq<int>)
    ensures Run(pool, [Enter(id), Acquire(id), Recheck(id, false), Mutate(id, after)]).pool == after
  {
    var a := [Enter(id), Acquire(id), Recheck(id, false), Mutate(id, after)];
    assert a[..3] == [Enter(id), Acquire(id), Recheck(id, false)] && a[..3][..2] == [Enter(id), Acquire(id)];
    assert [Enter(id), Acquire(id)][..1] == [Enter(id)] && [Enter(id)][..0] == [];
    assert PhaseOf(Run(pool, [Enter(id)]), id) == PastFirstCheck;
    assert PhaseOf(Run(pool, [Enter(id), Acquire(id)]), id) == Locked;
    assert PhaseOf(Run(pool, a[..3]), id) == Mutating;
  }

  /** Step i drains the pool. */
  predicate Drains(pool: seq<int>, actions: seq<Action>, i: nat)
    requires i < |actions|
  {
    actions[i].Drain? && CallOf(Run(pool, actions[..i]), actions[i].id).Holding?
  }

  /** Step i is a boot that adds instances after a drain, and no drain has come since. */
  predicate LateStart(pool: seq<int>, actions: seq<Action>, i: nat)
    requires i < |actions|
  {
    && actions[i].StartAppends? && actions[i].ports != [] && Run(pool, actions[..i]).drained
    && forall j | i < j < |actions| :: !Drains(pool, actions, j)
  }

  lemma {:induction false} LastStep(pool: seq<int>, actions: seq<Action>, i: nat)
    requires i < |actions| - 1
    ensures var n := |actions| - 1;
            LateStart(pool, actions, i) <==> LateStart(pool, actions[..n], i) && !Drains(pool, actions, n)
  {
    var n := |actions| - 1;
    forall j: nat | j < n
      ensures actions[..n][..j] == actions[..j] && Drains(pool, actions[..n], j) == Drains(pool, actions, j)
    {
      assert actions[..n][..j] == actions[..j];
    }
  }

  lemma {:induction false} LateStartsIff(pool: seq<int>, actions: seq<Action>)
    ensures Run(pool, actions).lateStarts == [] <==> forall i: nat | i < |actions| :: !LateStart(pool, actions, i)
    decreases |actions|
  {
    if actions != [] {
      var n := |actions| - 1;
      var before := Run(pool, actions[..n]);
      LateStartsIff(pool, actions[..n]);
      forall i: nat | i < n
        ensures LateStart(pool, actions, i) <==> LateStart(pool, actions[..n], i) && !Drains(pool, actions, n)
      {
        LastStep(pool, actions, i);
      }
      assert Run(pool, actions).lateStarts ==
             if Drains(pool, actions, n) then []
             else before.lateStarts + if LateStart(pool, actions, n) then actions[n].ports else [];
      if !Drains(pool, actions, n) && before.lateStarts != [] {
        var i: nat :| i < n && LateStart(pool, actions[..n], i);
        assert LateStart(pool, actions, i);
      }
    }
  }

  /** A drained pool is empty, under any interleaving, exactly when no boot has added instances since the last drain. */
  lemma {:induction false} StaysEmpty(pool: seq<int>, actions: seq<Action>)
    ensures Run(pool, actions).drained ==>
              (Run(pool, actions).pool == [] <==> forall i: nat | i < |actions| :: !LateStart(pool, actions, i))
  {
    EveryRunKeepsInv(pool, actions);
    LateStartsIff(pool, actions);
  }

  lemma {:induction false} RunLast(pool: seq<int>, actions: seq<Action>, a: Action)
    ensures Run(pool, actions + [a]) == Next(Run(pool, actions), a)
  {
    assert (actions + [a])[..|actions|] == actions;
  }

  /** Shutting down once more empties the pool again, whatever had come in. */
  lemma {:induction false} SecondShutdownEmpties(pool: seq<int>, actions: seq<Action>, id: nat)
    requires CallOf(Run(pool, actions), id).Holding?
    ensures var s := Run(pool, actions + [Drain(id)]);
            s.drained && s.pool == [] && forall k: nat | k <= |actions| :: !LateStart(pool, actions + [Drain(id)], k)
  {
    RunLast(pool, actions, Drain(id));
    StaysEmpty(pool, actions + [Drain(id)]);
  }
}
