/**
  internal/hub/registry.go changes its state under the lock and broadcasts the
  change after unlocking, and Subscribe enqueues the snapshot in the same way. So
  the stream of a subscriber need not follow the order of the changes. An edge
  only cares for the order of the events that touch the same spot: the globals,
  or one entry of its tenant map.
 */
module Broadcasts {
  import opened Config
  import opened EdgeFold
  import opened Text

  datatype Spot = Globals | Entry(key: string)

  predicate Touches(ev: Event, spot: Spot) {
    match ev
    case Snapshot(_, _, _) => true
    case GlobalsUpdate(_) => spot.Globals?
    case TenantUpsert(info) => spot == Entry(LowerAll(info.host))
    case TenantDelete(host) => spot == Entry(LowerAll(host))
    case Unknown(_) => false
    case Malformed(t) => spot.Globals? && t == GLOBALS_UPDATE
  }

  /** The events that touch a spot, in order. */
  function About(evs: seq<Event>, spot: Spot): seq<Event> {
    if evs == [] then []
    else About(evs[..|evs| - 1], spot) + if Touches(evs[|evs| - 1], spot) then [evs[|evs| - 1]] else []
  }

  /** The same events for every spot, in the same order. */
  ghost predicate SameOrder(a: seq<Event>, b: seq<Event>) {
    forall spot :: About(a, spot) == About(b, spot)
  }

  // ------------------------------------------------------------------
  // The order per spot decides what an edge shows.

  /** e and f agree on a spot. */
  predicate Agree(e: Edge, f: Edge, spot: Spot) {
    match spot
    case Globals => e.globals == f.globals
    case Entry(k) => (k in e.tenants <==> k in f.tenants) && (k in e.tenants ==> e.tenants[k] == f.tenants[k])
  }

  lemma {:induction false} AgreeEverywhere(e: Edge, f: Edge)
    requires forall spot :: Agree(e, f, spot)
    ensures e == f
  {
    assert Agree(e, f, Globals);
    forall k
      ensures k in e.tenants <==> k in f.tenants
      ensures k in e.tenants ==> e.tenants[k] == f.tenants[k]
    {
      assert Agree(e, f, Entry(k));
    }
    assert e.tenants == f.tenants;
  }

  lemma {:induction false} OneSpot(ev: Event, e: Edge, f: Edge, spot: Spot)
    requires Agree(e, f, spot)
    ensures Agree(TranslateEvent(ev, e), if Touches(ev, spot) then TranslateEvent(ev, f) else f, spot)
  {}

  lemma {:induction false} AboutLast(evs: seq<Event>, ev: Event, spot: Spot)
    ensures About(evs + [ev], spot) == About(evs, spot) + if Touches(ev, spot) then [ev] else []
  {
    assert (evs + [ev])[..|evs|] == evs;
  }

  lemma {:induction false} AboutAppend(a: seq<Event>, b: seq<Event>, spot: Spot)
    ensures About(a + b, spot) == About(a, spot) + About(b, spot)
    decreases b
  {
    if b == [] {
      assert a + b == a;
    } else {
      assert (a + b)[..|a + b| - 1] == a + b[..|b| - 1];
      AboutAppend(a, b[..|b| - 1], spot);
    }
  }

  lemma {:induction false} FoldLast(e: Edge, evs: seq<Event>, ev: Event)
    ensures Fold(e, evs + [ev]) == TranslateEvent(ev, Fold(e, evs))
  {
    assert (evs + [ev])[..|evs|] == evs;
  }

  /** A spot is as the events that touch it leave it. */
  lemma {:induction false} SpotDecided(e: Edge, evs: seq<Event>, spot: Spot)
    ensures Agree(Fold(e, evs), Fold(e, About(evs, spot)), spot)
    decreases evs
  {
    if evs != [] {
      var before, ev := evs[..|evs| - 1], evs[|evs| - 1];
      SpotDecided(e, before, spot);
      OneSpot(ev, Fold(e, before), Fold(e, About(before, spot)), spot);
      if Touches(ev, spot) {
        FoldLast(e, About(before, spot), ev);
      } else {
        assert About(evs, spot) == About(before, spot);
      }
    }
  }

  lemma {:induction false} OrderDecides(e: Edge, a: seq<Event>, b: seq<Event>)
    requires SameOrder(a, b)
    ensures Fold(e, a) == Fold(e, b)
  {
    forall spot
      ensures Agree(Fold(e, a), Fold(e, b), spot)
    {
      SpotDecided(e, a, spot);
      SpotDecided(e, b, spot);
    }
    AgreeEverywhere(Fold(e, a), Fold(e, b));
  }

  /** What the last event that touches a spot makes of an edge, if there is one. */
  function LastLeaves(evs: seq<Event>, spot: Spot, e: Edge): Edge {
    if evs == [] then e
    else if Touches(evs[|evs| - 1], spot) then TranslateEvent(evs[|evs| - 1], e)
    else LastLeaves(evs[..|evs| - 1], spot, e)
  }

  /** For every spot the two last events that touch it do the same there. */
  ghost predicate SameLast(a: seq<Event>, b: seq<Event>) {
    forall spot: Spot, e: Edge :: Agree(LastLeaves(a, spot, e), LastLeaves(b, spot, e), spot)
  }

  /** An event decides what it touches, whatever was there. */
  lemma {:induction false} Overwrites(ev: Event, e: Edge, f: Edge, spot: Spot)
    requires Touches(ev, spot)
    ensures Agree(TranslateEvent(ev, e), TranslateEvent(ev, f), spot)
  {}

  lemma {:induction false} LastDecides(e: Edge, evs: seq<Event>, spot: Spot)
    ensures Agree(Fold(e, evs), LastLeaves(evs, spot, e), spot)
    decreases evs
  {
    if evs != [] {
      var before, ev := evs[..|evs| - 1], evs[|evs| - 1];
      if Touches(ev, spot) {
        Overwrites(ev, Fold(e, before), e, spot);
      } else {
        LastDecides(e, before, spot);
        OneSpot(ev, Fold(e, before), LastLeaves(before, spot, e), spot);
      }
    }
  }

  /** Two streams do the same to every edge. */
  ghost predicate Alike(a: seq<Event>, b: seq<Event>) {
    forall e: Edge :: Fold(e, a) == Fold(e, b)
  }

  lemma {:induction false} SpotAlike(a: seq<Event>, b: seq<Event>, e: Edge, spot: Spot)
    ensures Agree(Fold(e, a), Fold(e, b), spot) <==> Agree(LastLeaves(a, spot, e), LastLeaves(b, spot, e), spot)
  {
    LastDecides(e, a, spot);
    LastDecides(e, b, spot);
  }

  /** Exactly when for every spot the last events that touch it do the same there. */
  lemma {:induction false} AlikeIff(a: seq<Event>, b: seq<Event>)
    ensures Alike(a, b) <==> SameLast(a, b)
  {
    if SameLast(a, b) {
      forall e: Edge
        ensures Fold(e, a) == Fold(e, b)
      {
        forall spot
          ensures Agree(Fold(e, a), Fold(e, b), spot)
        {
          SpotAlike(a, b, e, spot);
        }
        AgreeEverywhere(Fold(e, a), Fold(e, b));
      }
    }
    if Alike(a, b) {
      forall spot, e: Edge
        ensures Agree(LastLeaves(a, spot, e), LastLeaves(b, spot, e), spot)
      {
        SpotAlike(a, b, e, spot);
      }
    }
  }

  lemma {:induction false} AboutOne(ev: Event, spot: Spot)
    ensures About([ev], spot) == if Touches(ev, spot) then [ev] else []
  {
    assert [ev] == [] + [ev] && About([], spot) == [];
    AboutLast([], ev, spot);
  }

  /** The node filter keeps or drops an event, or trims a snapshot, whatever the spot. */
  lemma {:induction false} FilterKeepsSpot(ev: Event, c: Caller, spot: Spot)
    ensures About(Filter(ev, c), spot) == if Touches(ev, spot) then Filter(ev, c) else []
  {
    var f := Filter(ev, c);
    if f != [] {
      assert f == [f[0]] && (Touches(f[0], spot) <==> Touches(ev, spot));
      AboutOne(f[0], spot);
    }
  }

  lemma {:induction false} FilterLast(evs: seq<Event>, ev: Event, c: Caller)
    ensures FilterAll(evs + [ev], c) == FilterAll(evs, c) + Filter(ev, c)
  {
    assert (evs + [ev])[..|evs|] == evs;
  }

  lemma {:induction false} FilterAboutLast(evs: seq<Event>, ev: Event, c: Caller, spot: Spot)
    ensures About(FilterAll(evs + [ev], c), spot) ==
              About(FilterAll(evs, c), spot) + if Touches(ev, spot) then Filter(ev, c) else []
  {
    FilterLast(evs, ev, c);
    AboutAppend(FilterAll(evs, c), Filter(ev, c), spot);
    FilterKeepsSpot(ev, c, spot);
  }

  lemma {:induction false} AboutFilterLast(evs: seq<Event>, ev: Event, c: Caller, spot: Spot)
    ensures FilterAll(About(evs + [ev], spot), c) ==
              FilterAll(About(evs, spot), c) + if Touches(ev, spot) then Filter(ev, c) else []
  {
    AboutLast(evs, ev, spot);
    if Touches(ev, spot) {
      FilterLast(About(evs, spot), ev, c);
    } else {
      assert About(evs, spot) + [] == About(evs, spot);
    }
  }

  lemma {:induction false} FilterAbout(evs: seq<Event>, c: Caller, spot: Spot)
    ensures About(FilterAll(evs, c), spot) == FilterAll(About(evs, spot), c)
    decreases |evs|
  {
    if evs != [] {
      var n := |evs| - 1;
      FilterAbout(evs[..n], c, spot);
      FilterAboutLast(evs[..n], evs[n], c, spot);
      AboutFilterLast(evs[..n], evs[n], c, spot);
      assert evs == evs[..n] + [evs[n]];
    }
  }

  /** A stream with the same order per spot leaves every edge of every node showing the same. */
  lemma {:induction false} MirrorsReordered(
    a: seq<Event>, b: seq<Event>, g: GlobalsConf, tenants: map<string, TenantConf>)
    requires Mirrors(a, g, tenants) && SameOrder(a, b)
    ensures Mirrors(b, g, tenants)
  {
    forall c: Caller, prior: Edge
      ensures Shows(Fold(prior, FilterAll(b, c)), g, Visible(tenants, c))
    {
      forall spot
        ensures About(FilterAll(a, c), spot) == About(FilterAll(b, c), spot)
      {
        FilterAbout(a, c, spot);
        FilterAbout(b, c, spot);
      }
      OrderDecides(prior, FilterAll(a, c), FilterAll(b, c));
    }
  }

  // ------------------------------------------------------------------
  // Commits and broadcasts as separate steps.

  /** One subscriber: the events in the order of the changes, those not enqueued yet, and those enqueued. */
  datatype Desk = Desk(committed: seq<Event>, pending: seq<Event>, sent: seq<Event>)

  datatype Action = Commit(ev: Event) | Send(i: nat)

  function Next(d: Desk, a: Action): Desk {
    match a
    case Commit(ev) => d.(committed := d.committed + [ev], pending := d.pending + [ev])
    case Send(i) =>
      if i < |d.pending|
      then d.(pending := d.pending[..i] + d.pending[i + 1..], sent := d.sent + [d.pending[i]])
      else d
  }

  function RunFrom(d: Desk, actions: seq<Action>): Desk {
    if actions == [] then d else Next(RunFrom(d, actions[..|actions| - 1]), actions[|actions| - 1])
  }

  /** No event overtakes another that touches the same spot. */
  ghost predicate Orderly(d: Desk, a: Action) {
    a.Send? && a.i < |d.pending| ==>
      forall spot, j | Touches(d.pending[a.i], spot) && 0 <= j < a.i :: !Touches(d.pending[j], spot)
  }

  ghost predicate AllOrderly(d: Desk, actions: seq<Action>) {
    forall k | 0 <= k < |actions| :: Orderly(RunFrom(d, actions[..k]), actions[k])
  }

  /** For every spot, what was sent and then what is pending is what was committed. */
  ghost predicate InOrder(d: Desk) {
    forall spot :: About(d.committed, spot) == About(d.sent, spot) + About(d.pending, spot)
  }

  lemma {:induction false} Untouched(evs: seq<Event>, spot: Spot)
    requires forall j | 0 <= j < |evs| :: !Touches(evs[j], spot)
    ensures About(evs, spot) == []
    decreases evs
  {
    if evs != [] {
      Untouched(evs[..|evs| - 1], spot);
    }
  }

  lemma {:induction false} Split(evs: seq<Event>, i: nat, spot: Spot)
    requires i < |evs|
    ensures About(evs, spot) ==
              About(evs[..i], spot) + (if Touches(evs[i], spot) then [evs[i]] else []) + About(evs[i + 1..], spot)
    ensures About(evs[..i] + evs[i + 1..], spot) == About(evs[..i], spot) + About(evs[i + 1..], spot)
  {
    assert evs == (evs[..i] + [evs[i]]) + evs[i + 1..];
    AboutAppend(evs[..i] + [evs[i]], evs[i + 1..], spot);
    AboutLast(evs[..i], evs[i], spot);
    AboutAppend(evs[..i], evs[i + 1..], spot);
  }

  lemma {:induction false} Regroup(s: seq<Event>, a: seq<Event>, m: seq<Event>, b: seq<Event>)
    requires a == [] || m == []
    ensures s + (a + m + b) == (s + m) + (a + b)
  {}

  lemma {:induction false} SendKeepsSpot(d: Desk, i: nat, spot: Spot)
    requires i < |d.pending| && Orderly(d, Send(i))
    requires About(d.committed, spot) == About(d.sent, spot) + About(d.pending, spot)
    ensures About(d.committed, spot) ==
              About(d.sent + [d.pending[i]], spot) + About(d.pending[..i] + d.pending[i + 1..], spot)
  {
    var ev := d.pending[i];
    var m := if Touches(ev, spot) then [ev] else [];
    Split(d.pending, i, spot);
    AboutLast(d.sent, ev, spot);
    if Touches(ev, spot) {
      Untouched(d.pending[..i], spot);
    }
    Regroup(About(d.sent, spot), About(d.pending[..i], spot), m, About(d.pending[i + 1..], spot));
  }

  lemma {:induction false} SendKeepsOrder(d: Desk, i: nat)
    requires InOrder(d) && i < |d.pending| && Orderly(d, Send(i))
    ensures InOrder(Next(d, Send(i)))
  {
    var ev := d.pending[i];
    forall spot
      ensures About(d.committed, spot) ==
                About(d.sent + [ev], spot) + About(d.pending[..i] + d.pending[i + 1..], spot)
    {
      SendKeepsSpot(d, i, spot);
    }
  }

  lemma {:induction false} CommitKeepsOrder(d: Desk, ev: Event)
    requires InOrder(d)
    ensures InOrder(Next(d, Commit(ev)))
  {
    forall spot
      ensures About(d.committed + [ev], spot) == About(d.sent, spot) + About(d.pending + [ev], spot)
    {
      AboutLast(d.committed, ev, spot);
      AboutLast(d.pending, ev, spot);
    }
  }

  lemma {:induction false} EveryRunInOrder(d: Desk, actions: seq<Action>)
    requires InOrder(d) && AllOrderly(d, actions)
    ensures InOrder(RunFrom(d, actions))
    decreases |actions|
  {
    if actions != [] {
      var n := |actions| - 1;
      forall k | 0 <= k < n
        ensures Orderly(RunFrom(d, actions[..n][..k]), actions[..n][k])
      {
        assert actions[..n][..k] == actions[..k];
      }
      EveryRunInOrder(d, actions[..n]);
      var before := RunFrom(d, actions[..n]);
      assert Orderly(before, actions[n]);
      match actions[n]
      case Commit(ev) => CommitKeepsOrder(before, ev);
      case Send(i) =>
        if i < |before.pending| {
          SendKeepsOrder(before, i);
        }
    }
  }

  const NOTHING := Desk([], [], [])

  /** However commits and broadcasts interleave: if nothing was overtaken, the stream has the order of the commits. */
  lemma {:induction false} OrderlyRunsAgree(actions: seq<Action>)
    requires AllOrderly(NOTHING, actions) && RunFrom(NOTHING, actions).pending == []
    ensures SameOrder(RunFrom(NOTHING, actions).sent, RunFrom(NOTHING, actions).committed)
  {
    assert InOrder(NOTHING);
    EveryRunInOrder(NOTHING, actions);
    var d := RunFrom(NOTHING, actions);
    forall spot
      ensures About(d.sent, spot) == About(d.committed, spot)
    {
      assert About(d.sent, spot) + [] == About(d.sent, spot);
    }
  }

  // ------------------------------------------------------------------
  // What an overtaken event does.

  /** The change that was committed last is not the one the edge ends with. */
  lemma {:induction false} LastSentWins(
    prior: Edge, evs: seq<Event>, t: TenantConf, u: TenantConf, v: nat, w: nat,
    g: GlobalsConf, tenants: map<string, TenantConf>)
    requires t.host == u.host && TranslateTenant(t) != TranslateTenant(u)
    ensures var swapped := evs + [TenantUpsert(TenantInfoFrom(u, w))] + [TenantUpsert(TenantInfoFrom(t, v))];
            !Shows(Fold(prior, swapped), g, tenants[u.host := u])
  {
    var first := evs + [TenantUpsert(TenantInfoFrom(u, w))];
    var e := Fold(prior, first + [TenantUpsert(TenantInfoFrom(t, v))]);
    FoldLast(prior, first, TenantUpsert(TenantInfoFrom(t, v)));
    InfoErases(t, v);
    assert Erased(e.tenants[LowerAll(u.host)]) == TranslateTenant(t);
    assert u.host in tenants[u.host := u];
  }

  /** An upsert enqueued before the snapshot that does not know it yet is lost on the edge. */
  lemma {:induction false} SnapshotOvertaken(prior: Edge, evs: seq<Event>, ev: Event, snapshot: Event)
    requires snapshot.Snapshot?
    ensures Fold(prior, evs + [ev] + [snapshot]) == Fold(prior, evs + [snapshot])
  {
    FoldLast(prior, evs + [ev], snapshot);
    FoldLast(prior, evs, snapshot);
  }

  /** Two upserts of one host, broadcast in the wrong order. */
  function SwappedRun(t: TenantConf, u: TenantConf, v: nat): seq<Action> {
    [Commit(TenantUpsert(TenantInfoFrom(t, v))), Commit(TenantUpsert(TenantInfoFrom(u, v + 1))), Send(1), Send(0)]
  }

  lemma {:induction false} SwappedRunSends(t: TenantConf, u: TenantConf, v: nat)
    ensures var d, a, b := RunFrom(NOTHING, SwappedRun(t, u, v)),
                           TenantUpsert(TenantInfoFrom(t, v)), TenantUpsert(TenantInfoFrom(u, v + 1));
            d.committed == [a, b] && d.sent == [b, a] && d.pending == []
  {
    var a, b := TenantUpsert(TenantInfoFrom(t, v)), TenantUpsert(TenantInfoFrom(u, v + 1));
    var run := SwappedRun(t, u, v);
    assert run[..3] == [Commit(a), Commit(b), Send(1)];
    assert run[..3][..2] == [Commit(a), Commit(b)];
    assert [Commit(a), Commit(b)][..1] == [Commit(a)];
    assert [Commit(a)][..0] == [];
    assert RunFrom(NOTHING, [Commit(a)]) == Desk([a], [a], []);
    assert RunFrom(NOTHING, [Commit(a), Commit(b)]) == Desk([a, b], [a, b], []);
    assert RunFrom(NOTHING, run[..3]) == Desk([a, b], [a], [b]);
  }

  /** It leaves every edge with the settings that were replaced. */
  lemma {:induction false} SwappedRunDiverges(
    prior: Edge, t: TenantConf, u: TenantConf, v: nat, g: GlobalsConf, tenants: map<string, TenantConf>)
    requires t.host == u.host && TranslateTenant(t) != TranslateTenant(u)
    ensures !Shows(Fold(prior, RunFrom(NOTHING, SwappedRun(t, u, v)).sent), g, tenants[u.host := u])
  {
    SwappedRunSends(t, u, v);
    LastSentWins(prior, [], t, u, v, v + 1, g, tenants);
    var a, b := TenantUpsert(TenantInfoFrom(t, v)), TenantUpsert(TenantInfoFrom(u, v + 1));
    assert [] + [b] + [a] == [b, a];
  }
}
