/**
  The events with which internal/hub/registry.go announces an external edit:
  the difference between the old state and the new one.
 */
module Diff {
  import opened Config
  import opened EdgeFold
  import opened Orders
  import opened Text

  function Rank(ev: Event): nat {
    match ev
    case TenantUpsert(_) => 1
    case TenantDelete(_) => 2
    case _ => 0
  }

  function HostOf(ev: Event): string {
    match ev
    case TenantUpsert(info) => info.host
    case TenantDelete(host) => host
    case _ => ""
  }

  /** Globals before upserts before deletes, each kind by host. */
  ghost predicate InOrder(evs: seq<Event>) {
    forall i, j | 0 <= i < j < |evs| ::
      Rank(evs[i]) < Rank(evs[j]) || (Rank(evs[i]) == Rank(evs[j]) && StrBelow(HostOf(evs[i]), HostOf(evs[j])))
  }

  /** Which is: no globals after a tenant, no upsert after a delete, and each kind in the order of hosts. */
  lemma {:induction false} InOrderMeans(evs: seq<Event>, i: nat, j: nat)
    requires InOrder(evs) && i < j < |evs|
    ensures evs[j].GlobalsUpdate? ==> !evs[i].TenantUpsert? && !evs[i].TenantDelete? && !evs[i].GlobalsUpdate?
    ensures evs[j].TenantUpsert? ==> !evs[i].TenantDelete?
    ensures evs[i].TenantUpsert? && evs[j].TenantUpsert? ==> StrBelow(evs[i].info.host, evs[j].info.host)
    ensures evs[i].TenantDelete? && evs[j].TenantDelete? ==> StrBelow(evs[i].host, evs[j].host)
  {
    assert Rank(evs[i]) < Rank(evs[j]) || (Rank(evs[i]) == Rank(evs[j]) && StrBelow(HostOf(evs[i]), HostOf(evs[j])));
  }

  ghost predicate OfRank(evs: seq<Event>, rank: nat) {
    forall i | 0 <= i < |evs| :: Rank(evs[i]) == rank
  }

  lemma {:induction false} JoinInOrder(a: seq<Event>, b: seq<Event>, c: seq<Event>)
    requires OfRank(a, 0) && |a| <= 1 && InOrder(b) && OfRank(b, 1) && InOrder(c) && OfRank(c, 2)
    ensures InOrder(a + b + c)
  {}

  function Globals(g: GlobalsConf, g': GlobalsConf): seq<Event> {
    if g == g' then [] else [GlobalsUpdate(g')]
  }

  /** Upserts of the listed hosts. */
  function Upserts(hosts: seq<string>, ts: map<string, TenantConf>, version: nat): (evs: seq<Event>)
    requires forall i | 0 <= i < |hosts| :: hosts[i] in ts
    ensures |evs| == |hosts|
  {
    seq(|hosts|, i requires 0 <= i < |hosts| => TenantUpsert(TenantInfoFrom(ts[hosts[i]], version)))
  }

  function Deletes(hosts: seq<string>): (evs: seq<Event>)
    ensures |evs| == |hosts|
  {
    seq(|hosts|, i requires 0 <= i < |hosts| => TenantDelete(hosts[i]))
  }

  predicate Changed(t: map<string, TenantConf>, t': map<string, TenantConf>, h: string) {
    h in t' && !(h in t && t[h] == t'[h])
  }

  // ------------------------------------------------------------------
  // One caller's edge while the upserts come in.

  /** The edge already shows the new tenant: it has not changed, or one with its lower-case host has been sent. */
  ghost predicate Settled(t: map<string, TenantConf>, t': map<string, TenantConf>, sent: set<string>, h: string) {
    !Changed(t, t', h) || exists k :: k in sent && k in t' && LowerAll(k) == LowerAll(h)
  }

  /** Some old or new tenant has this lower-case host and has not been deleted. */
  ghost predicate Known(t: map<string, TenantConf>, t': map<string, TenantConf>, gone: set<string>, k: string) {
    exists h :: (h in t || h in t') && h !in gone && LowerAll(h) == k
  }

  ghost predicate Settling(
    shown: map<string, TenantSnapshot>, t: map<string, TenantConf>, t': map<string, TenantConf>, sent: set<string>)
  {
    && (forall k | k in shown :: Known(t, t', {}, k))
    && (forall h | h in t' && Settled(t, t', sent, h) ::
          LowerAll(h) in shown && Erased(shown[LowerAll(h)]) == TranslateTenant(t'[h]))
  }

  lemma {:induction false} ShownIsSettling(
    shown: map<string, TenantSnapshot>, t: map<string, TenantConf>, t': map<string, TenantConf>)
    requires ShowsOnly(shown, t) && ShowsAll(shown, t)
    ensures Settling(shown, t, t', {})
  {
    forall k | k in shown
      ensures Known(t, t', {}, k)
    {
      var h :| h in t && LowerAll(h) == k;
    }
  }

  lemma {:induction false} UpsertSettles(
    shown: map<string, TenantSnapshot>, t: map<string, TenantConf>, t': map<string, TenantConf>,
    sent: set<string>, h: string, s: TenantSnapshot)
    requires Settling(shown, t, t', sent) && Compatible(t')
    requires h in t' ==> Erased(s) == TranslateTenant(t'[h])
    ensures Settling(if h in t' then shown[LowerAll(h) := s] else shown, t, t', sent + {h})
  {
    var shown' := if h in t' then shown[LowerAll(h) := s] else shown;
    forall k | k in shown'
      ensures Known(t, t', {}, k)
    {
      assert k in shown || (h in t' && LowerAll(h) == k);
    }
    forall x | x in t' && Settled(t, t', sent + {h}, x)
      ensures LowerAll(x) in shown' && Erased(shown'[LowerAll(x)]) == TranslateTenant(t'[x])
    {
      if !(h in t' && LowerAll(x) == LowerAll(h)) {
        SettledBefore(t, t', sent, h, x);
      }
    }
  }

  lemma {:induction false} SettledBefore(
    t: map<string, TenantConf>, t': map<string, TenantConf>, sent: set<string>, h: string, x: string)
    requires Settled(t, t', sent + {h}, x) && !(h in t' && LowerAll(x) == LowerAll(h))
    ensures Settled(t, t', sent, x)
  {
    if Changed(t, t', x) {
      var k :| k in sent + {h} && k in t' && LowerAll(k) == LowerAll(x);
      assert k in sent;
    }
  }

  // ------------------------------------------------------------------
  // One caller's edge while the deletes come in.

  ghost predicate Clearing(
    shown: map<string, TenantSnapshot>, t: map<string, TenantConf>, t': map<string, TenantConf>, gone: set<string>)
  {
    (forall k | k in shown :: Known(t, t', gone, k)) && ShowsAll(shown, t')
  }

  lemma {:induction false} SettledIsClearing(
    shown: map<string, TenantSnapshot>, t: map<string, TenantConf>, t': map<string, TenantConf>, sent: set<string>)
    requires Settling(shown, t, t', sent) && forall h | Changed(t, t', h) :: h in sent
    ensures Clearing(shown, t, t', {})
  {
    forall h | h in t'
      ensures LowerAll(h) in shown && Erased(shown[LowerAll(h)]) == TranslateTenant(t'[h])
    {
      assert Settled(t, t', sent, h);
    }
  }

  lemma {:induction false} DeleteClears(
    shown: map<string, TenantSnapshot>, t: map<string, TenantConf>, t': map<string, TenantConf>,
    gone: set<string>, h: string)
    requires Clearing(shown, t, t', gone)
    requires forall k | k in t' :: LowerAll(k) != LowerAll(h)
    ensures Clearing(if h in t then shown - {LowerAll(h)} else shown, t, t', gone + {h})
  {
    var shown' := if h in t then shown - {LowerAll(h)} else shown;
    forall k | k in shown'
      ensures Known(t, t', gone + {h}, k)
    {
      assert Known(t, t', gone, k);
      var x :| (x in t || x in t') && x !in gone && LowerAll(x) == k;
      assert x !in gone + {h};
    }
  }

  lemma {:induction false} ClearedIsShown(
    shown: map<string, TenantSnapshot>, t: map<string, TenantConf>, t': map<string, TenantConf>, gone: set<string>)
    requires Clearing(shown, t, t', gone) && forall h | h in t && h !in t' :: h in gone
    ensures ShowsOnly(shown, t') && ShowsAll(shown, t')
  {
    forall k | k in shown
      ensures exists h :: h in t' && LowerAll(h) == k
    {
      assert Known(t, t', gone, k);
      var h :| (h in t || h in t') && h !in gone && LowerAll(h) == k;
      assert h in t' && LowerAll(h) == k;
    }
  }

  // ------------------------------------------------------------------
  // The whole difference, for every caller.

  /** The new tenants are compatible, and none that is gone differs only in case from one that stays or comes. */
  ghost predicate DiffSafe(t: map<string, TenantConf>, t': map<string, TenantConf>) {
    Compatible(t') && GoneApart(t, t')
  }

  ghost predicate GoneApart(t: map<string, TenantConf>, t': map<string, TenantConf>) {
    forall h, k | h in t && h !in t' && k in t' :: LowerAll(h) != LowerAll(k)
  }

  /** What a caller's edge becomes when these events are sent. */
  function After(e: Edge, evs: seq<Event>, c: Caller): Edge { Fold(e, FilterAll(evs, c)) }

  /** One event, filtered and folded in. */
  function Told(e: Edge, ev: Event, c: Caller): Edge {
    if Filter(ev, c) == [] then e else TranslateEvent(Filter(ev, c)[0], e)
  }

  lemma {:induction false} AfterOne(e: Edge, evs: seq<Event>, ev: Event, all: seq<Event>, c: Caller)
    requires all == evs + [ev]
    ensures After(e, all, c) == Told(After(e, evs, c), ev, c)
  {
    AfterBoth(e, evs, [ev], c);
    FoldOne(After(e, evs, c), ev, c);
  }

  lemma {:induction false} ToldUpsert(e: Edge, info: TenantInfo, c: Caller)
    ensures Told(e, TenantUpsert(info), c) ==
              if Allowed(c, info.host)
              then e.(tenants := e.tenants[LowerAll(info.host) := TenantInfoToSnapshot(info)])
              else e
  {}

  lemma {:induction false} ToldDelete(e: Edge, host: string, c: Caller)
    ensures Told(e, TenantDelete(host), c) ==
              if Allowed(c, host) then e.(tenants := e.tenants - {LowerAll(host)}) else e
  {}

  lemma {:induction false} AfterBoth(e: Edge, a: seq<Event>, b: seq<Event>, c: Caller)
    ensures After(e, a + b, c) == After(After(e, a, c), b, c)
  {
    FilterAppend(a, b, c);
    FoldAppend(e, FilterAll(a, c), FilterAll(b, c));
  }

  /** One more upsert in the list. */
  lemma {:induction false} UpsertsStep(
    e: Edge, ts: map<string, TenantConf>, hosts: seq<string>, version: nat, c: Caller)
    requires Keyed(ts) && hosts != [] && forall i | 0 <= i < |hosts| :: hosts[i] in ts
    ensures var h, before := hosts[|hosts| - 1], After(e, Upserts(hosts[..|hosts| - 1], ts, version), c);
            After(e, Upserts(hosts, ts, version), c) ==
              if Allowed(c, h)
              then before.(tenants :=
                             before.tenants[LowerAll(h) := TenantInfoToSnapshot(TenantInfoFrom(ts[h], version))])
              else before
    ensures Elements(hosts) == Elements(hosts[..|hosts| - 1]) + {hosts[|hosts| - 1]}
  {
    var n := |hosts| - 1;
    var ev := TenantUpsert(TenantInfoFrom(ts[hosts[n]], version));
    assert Upserts(hosts, ts, version) == Upserts(hosts[..n], ts, version) + [ev];
    AfterOne(e, Upserts(hosts[..n], ts, version), ev, Upserts(hosts, ts, version), c);
    ToldUpsert(After(e, Upserts(hosts[..n], ts, version), c), ev.info, c);
    ElementsLast(hosts);
  }

  /** One more delete in the list. */
  lemma {:induction false} DeletesStep(e: Edge, hosts: seq<string>, c: Caller)
    requires hosts != []
    ensures var h, before := hosts[|hosts| - 1], After(e, Deletes(hosts[..|hosts| - 1]), c);
            After(e, Deletes(hosts), c) ==
              if Allowed(c, h) then before.(tenants := before.tenants - {LowerAll(h)}) else before
    ensures Elements(hosts) == Elements(hosts[..|hosts| - 1]) + {hosts[|hosts| - 1]}
  {
    var n := |hosts| - 1;
    assert Deletes(hosts) == Deletes(hosts[..n]) + [TenantDelete(hosts[n])];
    AfterOne(e, Deletes(hosts[..n]), TenantDelete(hosts[n]), Deletes(hosts), c);
    ToldDelete(After(e, Deletes(hosts[..n]), c), hosts[n], c);
    ElementsLast(hosts);
  }

  lemma {:induction false} UpsertsSettle(
    e: Edge, t: map<string, TenantConf>, t': map<string, TenantConf>, hosts: seq<string>, version: nat, c: Caller)
    requires Keyed(t') && Compatible(t') && ShowsOnly(e.tenants, Visible(t, c)) && ShowsAll(e.tenants, Visible(t, c))
    requires forall i | 0 <= i < |hosts| :: hosts[i] in t'
    ensures var e' := After(e, Upserts(hosts, t', version), c);
            e'.globals == e.globals && Settling(e'.tenants, Visible(t, c), Visible(t', c), Elements(hosts))
    decreases |hosts|
  {
    var vt, vt' := Visible(t, c), Visible(t', c);
    if hosts == [] {
      assert Upserts(hosts, t', version) == [];
      ShownIsSettling(e.tenants, vt, vt');
    } else {
      var n := |hosts| - 1;
      var h, before := hosts[n], hosts[..n];
      UpsertsSettle(e, t, t', before, version, c);
      UpsertsStep(e, t', hosts, version, c);
      CompatiblePart(vt', t');
      InfoErases(t'[h], version);
      UpsertSettles(After(e, Upserts(before, t', version), c).tenants, vt, vt', Elements(before), h,
                    TenantInfoToSnapshot(TenantInfoFrom(t'[h], version)));
    }
  }

  lemma {:induction false} DeletesClear(
    e: Edge, t: map<string, TenantConf>, t': map<string, TenantConf>, gone: seq<string>, c: Caller)
    requires GoneApart(t, t') && Clearing(e.tenants, Visible(t, c), Visible(t', c), {})
    requires forall i | 0 <= i < |gone| :: gone[i] in t && gone[i] !in t'
    ensures var e' := After(e, Deletes(gone), c);
            e'.globals == e.globals && Clearing(e'.tenants, Visible(t, c), Visible(t', c), Elements(gone))
    decreases |gone|
  {
    if gone == [] {
      assert Deletes(gone) == [];
      assert Elements(gone) == {};
    } else {
      var n := |gone| - 1;
      var h, before := gone[n], gone[..n];
      DeletesClear(e, t, t', before, c);
      DeletesStep(e, gone, c);
      DeleteClears(After(e, Deletes(before), c).tenants, Visible(t, c), Visible(t', c), Elements(before), h);
    }
  }

  lemma {:induction false} GlobalsTranslate(e: Edge, g: GlobalsConf, g': GlobalsConf, c: Caller)
    requires e.globals == TranslateGlobals(g)
    ensures After(e, Globals(g, g'), c) == e.(globals := TranslateGlobals(g'))
  {
    if g != g' {
      FoldOne(e, GlobalsUpdate(g'), c);
    }
  }

  /** The hosts to announce. */
  ghost predicate Announces(
    t: map<string, TenantConf>, t': map<string, TenantConf>, hosts: seq<string>, gone: seq<string>)
  {
    && (forall h :: h in hosts <==> Changed(t, t', h))
    && (forall h :: h in gone <==> h in t && h !in t')
  }

  lemma {:induction false} AfterThree(e: Edge, a: seq<Event>, b: seq<Event>, d: seq<Event>, c: Caller)
    ensures After(e, a + b + d, c) == After(After(After(e, a, c), b, c), d, c)
  {
    AfterBoth(e, a, b, c);
    AfterBoth(e, a + b, d, c);
  }

  /** The upserts and the deletes together bring the tenants to the new state. */
  lemma {:induction false} TenantsShow(
    e: Edge, t: map<string, TenantConf>, t': map<string, TenantConf>,
    hosts: seq<string>, gone: seq<string>, version: nat, c: Caller)
    requires Keyed(t') && DiffSafe(t, t') && Announces(t, t', hosts, gone)
    requires ShowsOnly(e.tenants, Visible(t, c)) && ShowsAll(e.tenants, Visible(t, c))
    requires forall i | 0 <= i < |hosts| :: hosts[i] in t'
    ensures var e' := After(After(e, Upserts(hosts, t', version), c), Deletes(gone), c);
            e'.globals == e.globals && ShowsOnly(e'.tenants, Visible(t', c)) && ShowsAll(e'.tenants, Visible(t', c))
  {
    var vt, vt' := Visible(t, c), Visible(t', c);
    var e1 := After(e, Upserts(hosts, t', version), c);
    UpsertsSettle(e, t, t', hosts, version, c);
    SettledIsClearing(e1.tenants, vt, vt', Elements(hosts));
    DeletesClear(e1, t, t', gone, c);
    ClearedIsShown(After(e1, Deletes(gone), c).tenants, vt, vt', Elements(gone));
  }

  lemma {:induction false} DiffShows(
    e: Edge, g: GlobalsConf, t: map<string, TenantConf>, g': GlobalsConf, t': map<string, TenantConf>,
    hosts: seq<string>, gone: seq<string>, version: nat, c: Caller)
    requires Keyed(t') && DiffSafe(t, t') && Announces(t, t', hosts, gone) && Shows(e, g, Visible(t, c))
    requires forall i | 0 <= i < |hosts| :: hosts[i] in t'
    ensures Shows(After(e, Globals(g, g') + Upserts(hosts, t', version) + Deletes(gone), c), g', Visible(t', c))
  {
    AfterThree(e, Globals(g, g'), Upserts(hosts, t', version), Deletes(gone), c);
    GlobalsTranslate(e, g, g', c);
    TenantsShow(After(e, Globals(g, g'), c), t, t', hosts, gone, version, c);
  }

  lemma {:induction false} DiffCarries(
    g: GlobalsConf, t: map<string, TenantConf>, g': GlobalsConf, t': map<string, TenantConf>,
    hosts: seq<string>, gone: seq<string>, version: nat)
    requires Keyed(t') && DiffSafe(t, t') && Announces(t, t', hosts, gone)
    requires forall i | 0 <= i < |hosts| :: hosts[i] in t'
    ensures Carries(Globals(g, g') + Upserts(hosts, t', version) + Deletes(gone), g, t, g', t')
  {
    var evs := Globals(g, g') + Upserts(hosts, t', version) + Deletes(gone);
    forall c: Caller, e: Edge | Shows(e, g, Visible(t, c))
      ensures Shows(Fold(e, FilterAll(evs, c)), g', Visible(t', c))
    {
      DiffShows(e, g, t, g', t', hosts, gone, version, c);
    }
  }

  /** A deleted host's entry is gone, and deletes bring nothing back. */
  lemma {:induction false} DeletesRemove(e: Edge, gone: seq<string>, h: string)
    requires h in gone
    ensures LowerAll(h) !in After(e, Deletes(gone), Everyone).tenants
    decreases |gone|
  {
    DeletesStep(e, gone, Everyone);
    if gone[|gone| - 1] != h {
      assert h in Elements(gone);
      DeletesRemove(e, gone[..|gone| - 1], h);
    }
  }

  lemma {:induction false} CarriedIsApart(
    evs: seq<Event>, g: GlobalsConf, t: map<string, TenantConf>,
    g': GlobalsConf, t': map<string, TenantConf>, gone: seq<string>)
    requires Compatible(t) && Carries(evs + Deletes(gone), g, t, g', t')
    requires forall h :: h in gone <==> h in t && h !in t'
    ensures DiffSafe(t, t')
  {
    var e := CarriedIsCompatible(evs + Deletes(gone), g, t, g', t');
    AfterBoth(e, evs, Deletes(gone), Everyone);
    forall h, k | h in t && h !in t' && k in t'
      ensures LowerAll(h) != LowerAll(k)
    {
      DeletesRemove(After(e, evs, Everyone), gone, h);
    }
  }

  // ------------------------------------------------------------------
  // The program.

  /** The new and changed hosts, in order. */
  method ChangedHosts(t: map<string, TenantConf>, t': map<string, TenantConf>) returns (hosts: seq<string>)
    ensures Ascending(hosts) && forall h :: h in hosts <==> Changed(t, t', h)
    ensures forall i | 0 <= i < |hosts| :: hosts[i] in t'
  {
    var order := SortedKeys(t'.Keys);
    hosts := [];
    for i := 0 to |order|
      invariant Ascending(hosts)
      invariant forall h :: h in hosts <==> h in Elements(order[..i]) && Changed(t, t', h)
    {
      NextElement(order, i);
      if !(order[i] in t && t[order[i]] == t'[order[i]]) {
        hosts := hosts + [order[i]];
      }
    }
    assert order[..|order|] == order;
    assert forall i | 0 <= i < |hosts| :: hosts[i] in hosts;
  }

  /** The upserts among the events describe the tenants they are about. */
  ghost predicate DescribesUpserts(evs: seq<Event>, ts: map<string, TenantConf>, version: nat) {
    forall i | 0 <= i < |evs| && evs[i].TenantUpsert? ::
      evs[i].info.host in ts && Describes(evs[i].info, ts[evs[i].info.host], version)
  }

  lemma {:induction false} UpsertsDescribe(hosts: seq<string>, ts: map<string, TenantConf>, version: nat)
    requires Keyed(ts) && forall i | 0 <= i < |hosts| :: hosts[i] in ts
    ensures DescribesUpserts(Upserts(hosts, ts, version), ts, version)
  {
    forall i | 0 <= i < |hosts|
      ensures Describes(TenantInfoFrom(ts[hosts[i]], version), ts[hosts[i]], version)
    {
      InfoDescribes(TenantInfoFrom(ts[hosts[i]], version), ts[hosts[i]], version);
    }
  }

  lemma {:induction false} JoinDescribes(
    g: GlobalsConf, g': GlobalsConf, upserts: seq<Event>, gone: seq<string>, ts: map<string, TenantConf>, version: nat)
    requires DescribesUpserts(upserts, ts, version)
    ensures DescribesUpserts(Globals(g, g') + upserts + Deletes(gone), ts, version) == true
  {}

  method UpsertEvents(hosts: seq<string>, ts: map<string, TenantConf>, version: nat) returns (evs: seq<Event>)
    requires Keyed(ts) && Ascending(hosts) && forall i | 0 <= i < |hosts| :: hosts[i] in ts
    ensures evs == Upserts(hosts, ts, version) && DescribesUpserts(evs, ts, version) == true
    ensures InOrder(evs) && OfRank(evs, 1)
  {
    evs := [];
    for i := 0 to |hosts|
      invariant evs == Upserts(hosts[..i], ts, version)
    {
      evs := evs + [TenantUpsert(TenantInfoFrom(ts[hosts[i]], version))];
    }
    assert hosts[..|hosts|] == hosts;
    UpsertsDescribe(hosts, ts, version);
  }

  method DeleteEvents(hosts: seq<string>) returns (evs: seq<Event>)
    requires Ascending(hosts)
    ensures evs == Deletes(hosts)
    ensures InOrder(evs) && OfRank(evs, 2)
  {
    evs := [];
    for i := 0 to |hosts|
      invariant evs == Deletes(hosts[..i])
    {
      evs := evs + [TenantDelete(hosts[i])];
    }
    assert hosts[..|hosts|] == hosts;
  }

  lemma {:induction false} NothingToSayIff(
    g: GlobalsConf, t: map<string, TenantConf>, g': GlobalsConf, t': map<string, TenantConf>,
    hosts: seq<string>, gone: seq<string>)
    requires Announces(t, t', hosts, gone)
    ensures Globals(g, g') == [] && hosts == [] && gone == [] <==> g == g' && t == t'
  {
    if hosts == [] && gone == [] {
      assert forall h | h in t' :: !Changed(t, t', h);
      assert forall h | h in t :: h in t';
      assert t == t';
    } else {
      assert hosts != [] ==> Changed(t, t', hosts[0]);
      assert gone != [] ==> gone[0] in t && gone[0] !in t';
    }
  }

  lemma {:induction false} DiffCarriesIff(
    g: GlobalsConf, t: map<string, TenantConf>, g': GlobalsConf, t': map<string, TenantConf>,
    hosts: seq<string>, gone: seq<string>, version: nat)
    requires Keyed(t') && Announces(t, t', hosts, gone) && forall i | 0 <= i < |hosts| :: hosts[i] in t'
    ensures var evs := Globals(g, g') + Upserts(hosts, t', version) + Deletes(gone);
            && (DiffSafe(t, t') ==> Carries(evs, g, t, g', t'))
            && (Compatible(t) && Carries(evs, g, t, g', t') ==> DiffSafe(t, t'))
  {
    var evs := Globals(g, g') + Upserts(hosts, t', version);
    if DiffSafe(t, t') {
      DiffCarries(g, t, g', t', hosts, gone, version);
    } else if Compatible(t) && Carries(evs + Deletes(gone), g, t, g', t') {
      CarriedIsApart(evs, g, t, g', t', gone);
    }
  }

  /**
    The events that lead from one state to the next: globals first, then new
    and changed tenants, then the tenants that are gone. They lead every edge
    there exactly when the difference is safe.
   */
  method DiffEvents(
    g: GlobalsConf, t: map<string, TenantConf>, g': GlobalsConf, t': map<string, TenantConf>, version: nat)
    returns (evs: seq<Event>)
    requires Keyed(t')
    ensures DiffSafe(t, t') ==> Carries(evs, g, t, g', t')
    ensures Compatible(t) && Carries(evs, g, t, g', t') ==> DiffSafe(t, t')
    ensures InOrder(evs) && DescribesUpserts(evs, t', version) == true
    ensures evs == [] <==> g == g' && t == t'
  {
    var hosts := ChangedHosts(t, t');
    var gone := SortedKeys(t.Keys - t'.Keys);
    assert Announces(t, t', hosts, gone) by {
      assert forall h :: h in gone <==> h in Elements(gone);
    }
    var upserts := UpsertEvents(hosts, t', version);
    var deletes := DeleteEvents(gone);
    JoinInOrder(Globals(g, g'), upserts, deletes);
    JoinDescribes(g, g', upserts, gone, t', version);
    DiffCarriesIff(g, t, g', t', hosts, gone, version);
    NothingToSayIff(g, t, g', t', hosts, gone);
    evs := Globals(g, g') + upserts + deletes;
  }
}
