/**
  How an edge follows the hub: the node filter of internal/hub/stream.go and
  internal/hub/nodes.go, and the fold of internal/proxy/snapshot.go.

  Version stamps differ between a snapshot and a delta, so what an edge shows is
  compared with versions erased. Hosts are lower-cased on the way in, so two
  hosts that differ only in case share one entry; Compatible says when that is
  harmless.
 */
module EdgeFold {
  import opened Config
  import opened Text

  // ------------------------------------------------------------------
  // The filter.

  /** Who is asking: no identity or no node store, an unregistered node, or a node with its assignment. */
  datatype Caller = Everyone | Unregistered | Node(assignment: seq<string>)

  predicate Allowed(c: Caller, host: string) {
    match c
    case Everyone => true
    case Unregistered => false
    case Node(assignment) => assignment == [] || "*" in assignment || host in assignment
  }

  /** NodeStore.TenantAllowed, the scan over the assignment list. */
  method TenantAllowed(nodes: map<string, seq<string>>, id: string, host: string) returns (ok: bool)
    ensures ok == Allowed(if id in nodes then Node(nodes[id]) else Unregistered, host)
    ensures ok <==> id in nodes && (nodes[id] == [] || "*" in nodes[id] || host in nodes[id])
  {
    if id !in nodes {
      return false;
    }
    var assignment := nodes[id];
    if |assignment| == 0 {
      return true;
    }
    for i := 0 to |assignment|
      invariant "*" !in assignment[..i] && host !in assignment[..i]
    {
      if assignment[i] == "*" || assignment[i] == host {
        return true;
      }
    }
    assert assignment[..|assignment|] == assignment;
    return false;
  }

  function AllowedInfos(infos: seq<TenantInfo>, c: Caller): seq<TenantInfo> {
    if infos == [] then []
    else
      var before := AllowedInfos(infos[..|infos| - 1], c);
      if Allowed(c, infos[|infos| - 1].host) then before + [infos[|infos| - 1]] else before
  }

  /** What the stream handler sends of one event: nothing, the event, or the trimmed snapshot. */
  function Filter(ev: Event, c: Caller): seq<Event> {
    match ev
    case Snapshot(tenants, globals, version) => [Snapshot(AllowedInfos(tenants, c), globals, version)]
    case TenantUpsert(info) => if Allowed(c, info.host) then [ev] else []
    case TenantDelete(host) => if Allowed(c, host) then [ev] else []
    case _ => [ev]
  }

  function FilterAll(evs: seq<Event>, c: Caller): seq<Event> {
    if evs == [] then [] else FilterAll(evs[..|evs| - 1], c) + Filter(evs[|evs| - 1], c)
  }

  // ------------------------------------------------------------------
  // The fold.

  function TranslateGlobals(g: GlobalsConf): map<string, FeatureSnapshot> {
    map name | name in g.features :: FeatureSnapshot(g.features[name].enabled, g.features[name].params, 0)
  }

  function TenantInfoToSnapshot(ti: TenantInfo): TenantSnapshot {
    TenantSnapshot(LowerAll(ti.host), ti.enabled, ti.features)
  }

  function SnapshotTenants(infos: seq<TenantInfo>): map<string, TenantSnapshot> {
    if infos == [] then map[]
    else
      var last := infos[|infos| - 1];
      SnapshotTenants(infos[..|infos| - 1])[LowerAll(last.host) := TenantInfoToSnapshot(last)]
  }

  const GLOBALS_UPDATE := "globals_update"

  /** The name of an event's type on the wire. */
  function TypeName(ev: Event): string {
    match ev
    case Snapshot(_, _, _) => "snapshot"
    case GlobalsUpdate(_) => GLOBALS_UPDATE
    case TenantUpsert(_) => "tenant_upsert"
    case TenantDelete(_) => "tenant_delete"
    case Unknown(t) => t
    case Malformed(t) => t
  }

  function TranslateEvent(ev: Event, prev: Edge): Edge {
    match ev
    case Snapshot(tenants, globals, _) => Edge(TranslateGlobals(globals), SnapshotTenants(tenants))
    case GlobalsUpdate(globals) => prev.(globals := TranslateGlobals(globals))
    case TenantUpsert(ti) => prev.(tenants := prev.tenants[LowerAll(ti.host) := TenantInfoToSnapshot(ti)])
    case TenantDelete(host) => prev.(tenants := prev.tenants - {LowerAll(host)})
    case Unknown(_) => prev
    // data that does not parse: an error, which changes nothing, except for
    // globals, which fall back to no features at all
    case Malformed(t) => if t == GLOBALS_UPDATE then prev.(globals := map[]) else prev
  }

  function Fold(prior: Edge, evs: seq<Event>): Edge {
    if evs == [] then prior else TranslateEvent(evs[|evs| - 1], Fold(prior, evs[..|evs| - 1]))
  }

  // ------------------------------------------------------------------
  // What an edge should show.

  function Erased(s: TenantSnapshot): TenantSnapshot {
    s.(features := map name | name in s.features :: s.features[name].(version := 0))
  }

  /** The local-mode translation of one tenant. */
  function TranslateTenant(t: TenantConf): TenantSnapshot {
    TenantSnapshot(
      LowerAll(t.host), t.enabled,
      map name | name in t.features :: FeatureSnapshot(t.features[name].enabled, t.features[name].params, 0))
  }

  /** e shows exactly these globals and these tenants, versions erased. */
  ghost predicate Shows(e: Edge, g: GlobalsConf, tenants: map<string, TenantConf>) {
    e.globals == TranslateGlobals(g) && ShowsOnly(e.tenants, tenants) && ShowsAll(e.tenants, tenants)
  }

  ghost predicate ShowsOnly(shown: map<string, TenantSnapshot>, tenants: map<string, TenantConf>) {
    forall k | k in shown :: exists h :: h in tenants && LowerAll(h) == k
  }

  ghost predicate ShowsAll(shown: map<string, TenantSnapshot>, tenants: map<string, TenantConf>) {
    forall h | h in tenants :: LowerAll(h) in shown && Erased(shown[LowerAll(h)]) == TranslateTenant(tenants[h])
  }

  function Visible(tenants: map<string, TenantConf>, c: Caller): map<string, TenantConf> {
    map h | h in tenants && Allowed(c, h) :: tenants[h]
  }

  predicate Keyed(tenants: map<string, TenantConf>) {
    forall h | h in tenants :: tenants[h].host == h
  }

  /** Hosts that differ only in case have the same settings. */
  ghost predicate Compatible(tenants: map<string, TenantConf>) {
    forall h, k | h in tenants && k in tenants && LowerAll(h) == LowerAll(k) ::
      TranslateTenant(tenants[h]) == TranslateTenant(tenants[k])
  }

  /** No other tenant's host differs from this one only in case. */
  ghost predicate Alone(tenants: map<string, TenantConf>, host: string) {
    forall h | h in tenants && h != host :: LowerAll(h) != LowerAll(host)
  }

  lemma {:induction false} ShownIsCompatible(e: Edge, g: GlobalsConf, tenants: map<string, TenantConf>)
    requires Shows(e, g, tenants)
    ensures Compatible(tenants)
  {}

  lemma {:induction false} CompatiblePart(part: map<string, TenantConf>, tenants: map<string, TenantConf>)
    requires Compatible(tenants) && forall h | h in part :: h in tenants && part[h] == tenants[h]
    ensures Compatible(part)
  {}

  /** Each lower-case host with the settings of its tenants, and no others. */
  ghost predicate Translated(shown: map<string, TenantSnapshot>, tenants: map<string, TenantConf>) {
    && (forall h | h in tenants :: LowerAll(h) in shown && shown[LowerAll(h)] == TranslateTenant(tenants[h]))
    && (forall k | k in shown :: exists h :: h in tenants && LowerAll(h) == k)
  }

  /** The edge that shows compatible tenants. */
  ghost function Showing(g: GlobalsConf, tenants: map<string, TenantConf>): (e: Edge)
    requires Compatible(tenants)
    ensures e.globals == TranslateGlobals(g) && Translated(e.tenants, tenants)
  {
    Edge(TranslateGlobals(g), map h | h in tenants :: LowerAll(h) := TranslateTenant(tenants[h]))
  }

  lemma {:induction false} OneTranslation(
    shown: map<string, TenantSnapshot>, shown': map<string, TenantSnapshot>, tenants: map<string, TenantConf>)
    requires Translated(shown, tenants) && Translated(shown', tenants)
    ensures shown == shown'
  {
    forall k | k in shown
      ensures k in shown' && shown'[k] == shown[k]
    {
      var h :| h in tenants && LowerAll(h) == k;
    }
    forall k | k in shown'
      ensures k in shown
    {
      var h :| h in tenants && LowerAll(h) == k;
    }
  }

  lemma {:induction false} ShowingShows(g: GlobalsConf, tenants: map<string, TenantConf>)
    requires Compatible(tenants)
    ensures Shows(Showing(g, tenants), g, tenants) && Visible(tenants, Everyone) == tenants
  {
    TranslatedShows(Showing(g, tenants).tenants, tenants);
  }

  /** A map that translates each tenant shows the tenants. */
  lemma {:induction false} TranslatedShows(shown: map<string, TenantSnapshot>, tenants: map<string, TenantConf>)
    requires Translated(shown, tenants)
    ensures ShowsOnly(shown, tenants) && ShowsAll(shown, tenants)
  {
    forall h | h in tenants
      ensures Erased(shown[LowerAll(h)]) == TranslateTenant(tenants[h])
    {
      TranslationIsErased(tenants[h]);
    }
  }

  lemma {:induction false} TranslationIsErased(t: TenantConf)
    ensures Erased(TranslateTenant(t)) == TranslateTenant(t)
  {}

  // Some contracts below compare Carries with true so that the verifier takes it as a whole.

  /** The events take every caller's edge from showing the first state to showing the second. */
  ghost predicate Carries(
    evs: seq<Event>, g: GlobalsConf, tenants: map<string, TenantConf>,
    g': GlobalsConf, tenants': map<string, TenantConf>)
  {
    forall c: Caller, e: Edge | Shows(e, g, Visible(tenants, c)) ::
      Shows(Fold(e, FilterAll(evs, c)), g', Visible(tenants', c))
  }

  /** Whatever the edge held before, the stream leaves it showing this state. */
  ghost predicate Mirrors(stream: seq<Event>, g: GlobalsConf, tenants: map<string, TenantConf>) {
    forall c: Caller, prior: Edge :: Shows(Fold(prior, FilterAll(stream, c)), g, Visible(tenants, c))
  }

  // ------------------------------------------------------------------
  // Appending.

  lemma {:induction false} FoldAppend(e: Edge, a: seq<Event>, b: seq<Event>)
    ensures Fold(e, a + b) == Fold(Fold(e, a), b)
    decreases b
  {
    if b == [] {
      assert a + b == a;
    } else {
      assert (a + b)[..|a + b| - 1] == a + b[..|b| - 1];
      FoldAppend(e, a, b[..|b| - 1]);
    }
  }

  lemma {:induction false} FilterAppend(a: seq<Event>, b: seq<Event>, c: Caller)
    ensures FilterAll(a + b, c) == FilterAll(a, c) + FilterAll(b, c)
    decreases b
  {
    if b == [] {
      assert a + b == a;
    } else {
      assert (a + b)[..|a + b| - 1] == a + b[..|b| - 1];
      FilterAppend(a, b[..|b| - 1], c);
    }
  }

  lemma {:induction false} CarriesCompose(
    a: seq<Event>, b: seq<Event>, g0: GlobalsConf, t0: map<string, TenantConf>,
    g1: GlobalsConf, t1: map<string, TenantConf>, g2: GlobalsConf, t2: map<string, TenantConf>)
    requires Carries(a, g0, t0, g1, t1) && Carries(b, g1, t1, g2, t2)
    ensures Carries(a + b, g0, t0, g2, t2)
  {
    forall c: Caller, e: Edge | Shows(e, g0, Visible(t0, c))
      ensures Shows(Fold(e, FilterAll(a + b, c)), g2, Visible(t2, c))
    {
      FilterAppend(a, b, c);
      FoldAppend(e, FilterAll(a, c), FilterAll(b, c));
    }
  }

  lemma {:induction false} MirrorsExtend(
    stream: seq<Event>, evs: seq<Event>, g: GlobalsConf, tenants: map<string, TenantConf>,
    g': GlobalsConf, tenants': map<string, TenantConf>)
    requires Mirrors(stream, g, tenants) && Carries(evs, g, tenants, g', tenants')
    ensures Mirrors(stream + evs, g', tenants')
  {
    forall c: Caller, prior: Edge
      ensures Shows(Fold(prior, FilterAll(stream + evs, c)), g', Visible(tenants', c))
    {
      FilterAppend(stream, evs, c);
      FoldAppend(prior, FilterAll(stream, c), FilterAll(evs, c));
    }
  }

  lemma {:induction false} FoldOne(e: Edge, ev: Event, c: Caller)
    ensures Fold(e, FilterAll([ev], c)) == if Filter(ev, c) == [] then e else TranslateEvent(Filter(ev, c)[0], e)
  {
    assert [ev][..0] == [];
    assert FilterAll([ev], c) == Filter(ev, c);
    var f := Filter(ev, c);
    assert f != [] ==> f[..|f| - 1] == [];
  }

  // ------------------------------------------------------------------
  // Each kind of event.

  lemma {:induction false} UpsertShowsOnly(
    shown: map<string, TenantSnapshot>, tenants: map<string, TenantConf>, t: TenantConf, s: TenantSnapshot)
    requires ShowsOnly(shown, tenants)
    ensures ShowsOnly(shown[LowerAll(t.host) := s], tenants[t.host := t])
  {
    var shown' := shown[LowerAll(t.host) := s];
    forall k | k in shown'
      ensures exists h :: h in tenants[t.host := t] && LowerAll(h) == k
    {
      if k == LowerAll(t.host) {
        assert t.host in tenants[t.host := t];
      } else {
        var h :| h in tenants && LowerAll(h) == k;
        assert h in tenants[t.host := t];
      }
    }
  }

  lemma {:induction false} UpsertShowsAll(
    shown: map<string, TenantSnapshot>, tenants: map<string, TenantConf>, t: TenantConf, s: TenantSnapshot)
    requires ShowsAll(shown, tenants) && Compatible(tenants[t.host := t])
    requires Erased(s) == TranslateTenant(t)
    ensures ShowsAll(shown[LowerAll(t.host) := s], tenants[t.host := t])
  {
    forall h | h in tenants[t.host := t]
      ensures LowerAll(h) in shown[LowerAll(t.host) := s]
      ensures Erased(shown[LowerAll(t.host) := s][LowerAll(h)]) == TranslateTenant(tenants[t.host := t][h])
    {
      assert t.host in tenants[t.host := t];
    }
  }

  lemma {:induction false} InfoErases(t: TenantConf, v: nat)
    ensures Erased(TenantInfoToSnapshot(TenantInfoFrom(t, v))) == TranslateTenant(t)
  {}

  lemma {:induction false} UpsertShows(e: Edge, g: GlobalsConf, tenants: map<string, TenantConf>, t: TenantConf, v: nat)
    requires Shows(e, g, tenants) && Compatible(tenants[t.host := t])
    ensures Shows(TranslateEvent(TenantUpsert(TenantInfoFrom(t, v)), e), g, tenants[t.host := t])
  {
    var s := TenantInfoToSnapshot(TenantInfoFrom(t, v));
    InfoErases(t, v);
    UpsertShowsOnly(e.tenants, tenants, t, s);
    UpsertShowsAll(e.tenants, tenants, t, s);
  }

  lemma {:induction false} DeleteShowsOnly(
    shown: map<string, TenantSnapshot>, tenants: map<string, TenantConf>, host: string)
    requires ShowsOnly(shown, tenants)
    ensures ShowsOnly(shown - {LowerAll(host)}, tenants - {host})
  {
    var shown' := shown - {LowerAll(host)};
    forall k | k in shown'
      ensures exists h :: h in tenants - {host} && LowerAll(h) == k
    {
      var h :| h in tenants && LowerAll(h) == k;
      assert h in tenants - {host};
    }
  }

  lemma {:induction false} DeleteShowsAll(
    shown: map<string, TenantSnapshot>, tenants: map<string, TenantConf>, host: string)
    requires ShowsAll(shown, tenants) && Alone(tenants, host)
    ensures ShowsAll(shown - {LowerAll(host)}, tenants - {host})
  {
    forall h | h in tenants - {host}
      ensures LowerAll(h) in shown - {LowerAll(host)}
    {
      assert h in tenants && h != host;
    }
  }

  lemma {:induction false} DeleteShows(e: Edge, g: GlobalsConf, tenants: map<string, TenantConf>, host: string)
    requires Shows(e, g, tenants) && Alone(tenants, host)
    ensures Shows(TranslateEvent(TenantDelete(host), e), g, tenants - {host})
  {
    DeleteShowsOnly(e.tenants, tenants, host);
    DeleteShowsAll(e.tenants, tenants, host);
  }

  lemma {:induction false} VisibleUpsert(tenants: map<string, TenantConf>, t: TenantConf, c: Caller)
    ensures Visible(tenants[t.host := t], c) ==
              if Allowed(c, t.host) then Visible(tenants, c)[t.host := t] else Visible(tenants, c)
  {}

  lemma {:induction false} VisibleDelete(tenants: map<string, TenantConf>, host: string, c: Caller)
    ensures Visible(tenants - {host}, c) ==
              if Allowed(c, host) then Visible(tenants, c) - {host} else Visible(tenants, c)
  {}

  lemma {:induction false} UpsertCarries(g: GlobalsConf, tenants: map<string, TenantConf>, t: TenantConf, v: nat)
    requires Compatible(tenants[t.host := t])
    ensures Carries([TenantUpsert(TenantInfoFrom(t, v))], g, tenants, g, tenants[t.host := t])
  {
    var ev := TenantUpsert(TenantInfoFrom(t, v));
    forall c: Caller, e: Edge | Shows(e, g, Visible(tenants, c))
      ensures Shows(Fold(e, FilterAll([ev], c)), g, Visible(tenants[t.host := t], c))
    {
      FoldOne(e, ev, c);
      VisibleUpsert(tenants, t, c);
      if Allowed(c, t.host) {
        CompatiblePart(Visible(tenants, c)[t.host := t], tenants[t.host := t]);
        UpsertShows(e, g, Visible(tenants, c), t, v);
      }
    }
  }

  /** An upsert keeps every edge right exactly when the tenants it leads to are compatible. */
  lemma {:induction false} UpsertCarriesIff(g: GlobalsConf, tenants: map<string, TenantConf>, t: TenantConf, v: nat)
    requires Compatible(tenants)
    ensures Carries([TenantUpsert(TenantInfoFrom(t, v))], g, tenants, g, tenants[t.host := t])
            <==> Compatible(tenants[t.host := t])
  {
    var evs := [TenantUpsert(TenantInfoFrom(t, v))];
    if Compatible(tenants[t.host := t]) {
      UpsertCarries(g, tenants, t, v);
    } else if Carries(evs, g, tenants, g, tenants[t.host := t]) {
      var e := CarriedIsCompatible(evs, g, tenants, g, tenants[t.host := t]);
    }
  }

  /** Only compatible tenants can be carried to: e is an edge that was right before and is right after. */
  lemma {:induction false} CarriedIsCompatible(
    evs: seq<Event>, g: GlobalsConf, tenants: map<string, TenantConf>,
    g': GlobalsConf, tenants': map<string, TenantConf>)
    returns (e: Edge)
    requires Compatible(tenants) && Carries(evs, g, tenants, g', tenants') == true
    ensures Compatible(tenants')
    ensures Shows(e, g, tenants) && Shows(Fold(e, FilterAll(evs, Everyone)), g', tenants')
  {
    e := Showing(g, tenants);
    ShowingShows(g, tenants);
    assert Visible(tenants', Everyone) == tenants';
    ShownIsCompatible(Fold(e, FilterAll(evs, Everyone)), g', tenants');
  }

  lemma {:induction false} DeleteCarries(g: GlobalsConf, tenants: map<string, TenantConf>, host: string)
    requires Alone(tenants, host)
    ensures Carries([TenantDelete(host)], g, tenants, g, tenants - {host}) == true
  {
    var ev := TenantDelete(host);
    forall c: Caller, e: Edge | Shows(e, g, Visible(tenants, c))
      ensures Shows(Fold(e, FilterAll([ev], c)), g, Visible(tenants - {host}, c))
    {
      FoldOne(e, ev, c);
      VisibleDelete(tenants, host, c);
      if Allowed(c, host) {
        assert Alone(Visible(tenants, c), host);
        DeleteShows(e, g, Visible(tenants, c), host);
      }
    }
  }

  /** A delete keeps every edge right exactly when no other host goes with it. */
  lemma {:induction false} DeleteCarriesIff(g: GlobalsConf, tenants: map<string, TenantConf>, host: string)
    requires Compatible(tenants)
    ensures Carries([TenantDelete(host)], g, tenants, g, tenants - {host}) <==> Alone(tenants, host)
  {
    var evs := [TenantDelete(host)];
    if Alone(tenants, host) {
      DeleteCarries(g, tenants, host);
    } else if Carries(evs, g, tenants, g, tenants - {host}) {
      DeletedIsAlone(g, tenants, host);
    }
  }

  lemma {:induction false} DeletedIsAlone(g: GlobalsConf, tenants: map<string, TenantConf>, host: string)
    requires Compatible(tenants) && Carries([TenantDelete(host)], g, tenants, g, tenants - {host}) == true
    ensures Alone(tenants, host)
  {
    var e := CarriedIsCompatible([TenantDelete(host)], g, tenants, g, tenants - {host});
    FoldOne(e, TenantDelete(host), Everyone);
    WithoutEntry(e.tenants, tenants, host);
  }

  lemma {:induction false} WithoutEntry(
    shown: map<string, TenantSnapshot>, tenants: map<string, TenantConf>, host: string)
    requires ShowsAll(shown - {LowerAll(host)}, tenants - {host})
    ensures Alone(tenants, host)
  {
    forall h | h in tenants && h != host
      ensures LowerAll(h) != LowerAll(host)
    {
      assert h in tenants - {host};
    }
  }

  lemma {:induction false} GlobalsCarries(g: GlobalsConf, tenants: map<string, TenantConf>, g': GlobalsConf)
    ensures Carries([GlobalsUpdate(g')], g, tenants, g', tenants)
  {
    forall c: Caller, e: Edge | Shows(e, g, Visible(tenants, c))
      ensures Shows(Fold(e, FilterAll([GlobalsUpdate(g')], c)), g', Visible(tenants, c))
    {
      FoldOne(e, GlobalsUpdate(g'), c);
    }
  }

  // ------------------------------------------------------------------
  // The snapshot.

  /** infos lists the tenants of hosts, each once, in any order. */
  ghost predicate Enumerates(infos: seq<TenantInfo>, tenants: map<string, TenantConf>, hosts: set<string>, v: nat) {
    && hosts <= tenants.Keys
    && (forall i | 0 <= i < |infos| :: infos[i].host in hosts && infos[i] == TenantInfoFrom(tenants[infos[i].host], v))
    && (forall h | h in hosts :: exists i | 0 <= i < |infos| :: infos[i].host == h)
    && (forall i, j | 0 <= i < j < |infos| :: infos[i].host != infos[j].host)
  }

  function Restrict(tenants: map<string, TenantConf>, hosts: set<string>): map<string, TenantConf> {
    map h | h in tenants && h in hosts :: tenants[h]
  }

  lemma {:induction false} EnumeratesInit(
    infos: seq<TenantInfo>, tenants: map<string, TenantConf>, hosts: set<string>, v: nat)
    requires Enumerates(infos, tenants, hosts, v) && infos != []
    ensures Enumerates(infos[..|infos| - 1], tenants, hosts - {infos[|infos| - 1].host}, v)
  {
    var n := |infos| - 1;
    var p := infos[..n];
    forall h | h in hosts - {infos[n].host}
      ensures exists i | 0 <= i < |p| :: p[i].host == h
    {
      var i :| 0 <= i < |infos| && infos[i].host == h;
      assert p[i].host == h;
    }
  }

  lemma {:induction false} VisibleRestrict(
    tenants: map<string, TenantConf>, hosts: set<string>, host: string, c: Caller)
    requires host in hosts && host in tenants
    ensures var before := Visible(Restrict(tenants, hosts - {host}), c);
            Visible(Restrict(tenants, hosts), c) == if Allowed(c, host) then before[host := tenants[host]] else before
    ensures Visible(Restrict(tenants, hosts - {host}), c).Keys + {host} <= tenants.Keys
  {}

  lemma {:induction false} AllowedInfosLast(infos: seq<TenantInfo>, c: Caller)
    requires infos != []
    ensures var last := infos[|infos| - 1];
            var before := SnapshotTenants(AllowedInfos(infos[..|infos| - 1], c));
            SnapshotTenants(AllowedInfos(infos, c)) ==
              if Allowed(c, last.host) then before[LowerAll(last.host) := TenantInfoToSnapshot(last)] else before
  {
    var shown := AllowedInfos(infos[..|infos| - 1], c);
    if Allowed(c, infos[|infos| - 1].host) {
      assert AllowedInfos(infos, c)[..|shown|] == shown;
    }
  }

  /** What a caller sees of a snapshot list. */
  function ListedEdge(infos: seq<TenantInfo>, g: GlobalsConf, c: Caller): Edge {
    Edge(TranslateGlobals(g), SnapshotTenants(AllowedInfos(infos, c)))
  }

  /** One more listed tenant is one more upsert. */
  lemma {:induction false} ListedStep(
    infos: seq<TenantInfo>, g: GlobalsConf, tenants: map<string, TenantConf>, hosts: set<string>, v: nat, c: Caller,
    host: string)
    requires infos != [] && host in hosts && host in tenants && tenants[host].host == host
    requires Compatible(Visible(Restrict(tenants, hosts), c))
    requires infos[|infos| - 1] == TenantInfoFrom(tenants[host], v)
    requires Shows(ListedEdge(infos[..|infos| - 1], g, c), g, Visible(Restrict(tenants, hosts - {host}), c))
    ensures Shows(ListedEdge(infos, g, c), g, Visible(Restrict(tenants, hosts), c))
  {
    var before := Visible(Restrict(tenants, hosts - {host}), c);
    VisibleRestrict(tenants, hosts, host, c);
    AllowedInfosLast(infos, c);
    var e := ListedEdge(infos[..|infos| - 1], g, c);
    if Allowed(c, host) {
      assert ListedEdge(infos, g, c) == TranslateEvent(TenantUpsert(TenantInfoFrom(tenants[host], v)), e);
      UpsertShows(e, g, before, tenants[host], v);
    } else {
      assert ListedEdge(infos, g, c) == e;
    }
  }

  lemma {:induction false} NothingShown(g: GlobalsConf, tenants: map<string, TenantConf>, c: Caller)
    ensures Shows(ListedEdge([], g, c), g, Visible(Restrict(tenants, {}), c))
  {}

  /** Folding the filtered list shows exactly the listed tenants the caller may see. */
  lemma {:induction false} ListedShows(
    infos: seq<TenantInfo>, g: GlobalsConf, tenants: map<string, TenantConf>, hosts: set<string>, v: nat, c: Caller)
    requires Enumerates(infos, tenants, hosts, v) && Keyed(tenants)
    requires Compatible(Visible(Restrict(tenants, hosts), c))
    ensures Shows(ListedEdge(infos, g, c), g, Visible(Restrict(tenants, hosts), c))
    decreases infos
  {
    if infos == [] {
      assert hosts == {};
      NothingShown(g, tenants, c);
    } else {
      var host := infos[|infos| - 1].host;
      EnumeratesInit(infos, tenants, hosts, v);
      CompatiblePart(Visible(Restrict(tenants, hosts - {host}), c), Visible(Restrict(tenants, hosts), c));
      ListedShows(infos[..|infos| - 1], g, tenants, hosts - {host}, v, c);
      ListedStep(infos, g, tenants, hosts, v, c, host);
    }
  }

  /** Exactly when a node's part of a snapshot comes out right. */
  lemma {:induction false} ListedShowsIff(
    infos: seq<TenantInfo>, g: GlobalsConf, tenants: map<string, TenantConf>, hosts: set<string>, v: nat, c: Caller)
    requires Enumerates(infos, tenants, hosts, v) && Keyed(tenants)
    ensures Shows(ListedEdge(infos, g, c), g, Visible(Restrict(tenants, hosts), c))
            <==> Compatible(Visible(Restrict(tenants, hosts), c))
  {
    if Compatible(Visible(Restrict(tenants, hosts), c)) {
      ListedShows(infos, g, tenants, hosts, v, c);
    }
  }

  /** The snapshot that opens a subscription makes any edge show the hub's state, exactly when that is compatible. */
  lemma {:induction false} SnapshotMirrors(
    infos: seq<TenantInfo>, g: GlobalsConf, tenants: map<string, TenantConf>, v: nat)
    requires Enumerates(infos, tenants, tenants.Keys, v) && Keyed(tenants)
    ensures Mirrors([Snapshot(infos, g, v)], g, tenants) == Compatible(tenants)
  {
    var ev := Snapshot(infos, g, v);
    assert Restrict(tenants, tenants.Keys) == tenants;
    if Compatible(tenants) {
      forall c: Caller, prior: Edge
        ensures Shows(Fold(prior, FilterAll([ev], c)), g, Visible(tenants, c))
      {
        FoldOne(prior, ev, c);
        CompatiblePart(Visible(tenants, c), tenants);
        ListedShows(infos, g, tenants, tenants.Keys, v, c);
      }
    } else if Mirrors([ev], g, tenants) {
      MirroredIsCompatible([ev], g, tenants);
    }
  }

  /** A state that is not compatible is shown by no edge that may see all of it. */
  lemma {:induction false} MirroredIsCompatible(stream: seq<Event>, g: GlobalsConf, tenants: map<string, TenantConf>)
    requires Mirrors(stream, g, tenants)
    ensures Compatible(tenants)
  {
    var e := Fold(Edge(map[], map[]), FilterAll(stream, Everyone));
    assert Visible(tenants, Everyone) == tenants;
    assert Shows(e, g, Visible(tenants, Everyone));
  }

  // ------------------------------------------------------------------
  // What it means that an edge shows a state, in terms of the hub's records alone.

  /** The same features with the same settings, whatever their version stamps. */
  ghost predicate SameFeatures(shown: map<string, FeatureSnapshot>, conf: map<string, FeatureConf>) {
    && shown.Keys == conf.Keys
    && forall name | name in conf ::
         shown[name].enabled == conf[name].enabled && shown[name].params == conf[name].params
  }

  ghost predicate SameTenant(s: TenantSnapshot, t: TenantConf) {
    s.host == LowerAll(t.host) && s.enabled == t.enabled && SameFeatures(s.features, t.features)
  }

  /** The hub's globals, and under their lower-case hosts exactly these tenants, each with its own settings. */
  ghost predicate Holds(e: Edge, g: GlobalsConf, tenants: map<string, TenantConf>) {
    && SameFeatures(e.globals, g.features)
    && (forall h | h in tenants :: LowerAll(h) in e.tenants && SameTenant(e.tenants[LowerAll(h)], tenants[h]))
    && (forall k | k in e.tenants :: exists h :: h in tenants && LowerAll(h) == k)
  }

  lemma {:induction false} ErasedIff(s: TenantSnapshot, t: TenantConf)
    ensures Erased(s) == TranslateTenant(t) <==> SameTenant(s, t)
  {
    var a, b := Erased(s).features, TranslateTenant(t).features;
    if SameTenant(s, t) {
      assert forall name | name in a :: a[name] == b[name];
      assert a == b;
    } else if Erased(s) == TranslateTenant(t) {
      assert a.Keys == s.features.Keys && b.Keys == t.features.Keys;
      forall name | name in t.features
        ensures s.features[name].enabled == t.features[name].enabled
        ensures s.features[name].params == t.features[name].params
      {
        assert a[name] == b[name];
      }
    }
  }

  lemma {:induction false} GlobalsIff(shown: map<string, FeatureSnapshot>, g: GlobalsConf)
    ensures shown == TranslateGlobals(g) <==>
            SameFeatures(shown, g.features) && forall name | name in shown :: shown[name].version == 0
  {
    var b := TranslateGlobals(g);
    if SameFeatures(shown, g.features) && forall name | name in shown :: shown[name].version == 0 {
      assert forall name | name in shown :: shown[name] == b[name];
    }
  }

  /** To show a state is to hold it; the globals also carry no version stamp. */
  lemma {:induction false} ShowsIff(e: Edge, g: GlobalsConf, tenants: map<string, TenantConf>)
    ensures Shows(e, g, tenants) <==>
            Holds(e, g, tenants) && forall name | name in e.globals :: e.globals[name].version == 0
  {
    GlobalsIff(e.globals, g);
    forall h | h in tenants && LowerAll(h) in e.tenants
      ensures Erased(e.tenants[LowerAll(h)]) == TranslateTenant(tenants[h]) <==>
              SameTenant(e.tenants[LowerAll(h)], tenants[h])
    {
      ErasedIff(e.tenants[LowerAll(h)], tenants[h]);
    }
  }

  /** Who may see a tenant: whoever asks without an identity, or a registered node to which it is assigned. */
  ghost predicate MaySee(c: Caller, host: string) {
    c.Everyone? || (c.Node? && (c.assignment == [] || "*" in c.assignment || host in c.assignment))
  }

  /** An edge has an entry exactly for the tenants that its node may see. */
  lemma {:induction false} SeesExactly(e: Edge, g: GlobalsConf, tenants: map<string, TenantConf>, c: Caller, k: string)
    requires Shows(e, g, Visible(tenants, c))
    ensures k in e.tenants <==> exists h :: h in tenants && LowerAll(h) == k && MaySee(c, h)
  {
    ShowsIff(e, g, Visible(tenants, c));
    if h :| h in tenants && LowerAll(h) == k && MaySee(c, h) {
      assert h in Visible(tenants, c);
    }
  }

  /** The hub's globals and the tenants that the caller may see, each with its own settings, and no others. */
  ghost predicate Right(e: Edge, g: GlobalsConf, tenants: map<string, TenantConf>, c: Caller) {
    && SameFeatures(e.globals, g.features)
    && (forall h | h in tenants && MaySee(c, h) ::
          LowerAll(h) in e.tenants && SameTenant(e.tenants[LowerAll(h)], tenants[h]))
    && (forall k | k in e.tenants :: exists h :: h in tenants && LowerAll(h) == k && MaySee(c, h))
  }

  lemma {:induction false} ShowsIsRight(e: Edge, g: GlobalsConf, tenants: map<string, TenantConf>, c: Caller)
    requires Shows(e, g, Visible(tenants, c))
    ensures Right(e, g, tenants, c)
  {
    ShowsIff(e, g, Visible(tenants, c));
    forall k | k in e.tenants
      ensures exists h :: h in tenants && LowerAll(h) == k && MaySee(c, h)
    {
      SeesExactly(e, g, tenants, c, k);
    }
  }

  lemma {:induction false} UnregisteredSeesNothing(e: Edge, g: GlobalsConf, tenants: map<string, TenantConf>)
    requires Shows(e, g, Visible(tenants, Unregistered))
    ensures e.tenants == map[]
  {
    forall k
      ensures k !in e.tenants
    {
      SeesExactly(e, g, tenants, Unregistered, k);
    }
  }

  /** Nothing that is sent to a caller mentions a tenant that it may not see, and nothing else is held back. */
  ghost predicate SentRightly(ev: Event, sent: seq<Event>, c: Caller) {
    match ev
    case TenantUpsert(info) => sent == if MaySee(c, info.host) then [ev] else []
    case TenantDelete(host) => sent == if MaySee(c, host) then [ev] else []
    case Snapshot(infos, globals, version) =>
      && |sent| == 1 && sent[0].Snapshot? && sent[0].globals == globals && sent[0].version == version
      && forall info :: info in sent[0].tenants <==> info in infos && MaySee(c, info.host)
    case _ => sent == [ev]
  }

  lemma {:induction false} AllowedInfosExactly(infos: seq<TenantInfo>, c: Caller, info: TenantInfo)
    ensures info in AllowedInfos(infos, c) <==> info in infos && MaySee(c, info.host)
    decreases |infos|
  {
    if infos != [] {
      var n := |infos| - 1;
      assert infos == infos[..n] + [infos[n]];
      AllowedInfosExactly(infos[..n], c, info);
    }
  }

  lemma {:induction false} FilterSendsRightly(ev: Event, c: Caller)
    ensures SentRightly(ev, Filter(ev, c), c)
  {
    if ev.Snapshot? {
      forall info
        ensures info in AllowedInfos(ev.tenants, c) <==> info in ev.tenants && MaySee(c, info.host)
      {
        AllowedInfosExactly(ev.tenants, c, info);
      }
    }
  }
}
