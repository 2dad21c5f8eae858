/**
  The feature registry of internal/feature/registry.go and its resolver
  (internal/feature/resolver.go). A reload is two steps, validation against a
  copy of the registered features and the atomic swap, so registrations, other
  reloads and requests may fall in between. A request captures its tenant when
  it is routed (internal/proxy/router.go) and resolves features later.
 */
module Features {
  import opened Config

  type Validator = FeatureSnapshot -> bool

  /** The zero snapshot: a disabled feature. */
  const ZERO := FeatureSnapshot(false, "", 0)

  function Effective(globals: map<string, FeatureSnapshot>, name: string): FeatureSnapshot {
    if name in globals then globals[name] else ZERO
  }

  /** What a tenant gets for a feature: its override, else the globals value. */
  function EffectiveFor(e: Edge, t: TenantSnapshot, name: string): FeatureSnapshot {
    if name in t.features then t.features[name] else Effective(e.globals, name)
  }

  /** The feature accepts its globals value and every tenant's effective value. */
  ghost predicate FeatureAccepts(v: Validator, name: string, e: Edge) {
    && v(Effective(e.globals, name))
    && forall host | host in e.tenants :: v(EffectiveFor(e, e.tenants[host], name))
  }

  ghost predicate Accepts(features: map<string, Validator>, e: Edge) {
    forall name | name in features :: FeatureAccepts(features[name], name, e)
  }

  /** A validated reload that has not been published yet. */
  datatype Plan = Plan(features: map<string, Validator>, edge: Edge, ok: bool)

  method ValidateFeature(v: Validator, name: string, e: Edge) returns (errs: nat)
    ensures errs == 0 <==> FeatureAccepts(v, name, e)
    ensures var common := if name in e.globals then e.globals[name] else FeatureSnapshot(false, "", 0);
            errs == 0 <==>
              && v(common)
              && forall host | host in e.tenants ::
                   v(if name in e.tenants[host].features then e.tenants[host].features[name] else common)
  {
    errs := 0;
    if !v(Effective(e.globals, name)) {
      errs := errs + 1;
    }
    var todo := e.tenants.Keys;
    while todo != {}
      invariant todo <= e.tenants.Keys
      invariant errs == 0 <==> v(Effective(e.globals, name))
                               && forall host | host in e.tenants && host !in todo ::
                                    v(EffectiveFor(e, e.tenants[host], name))
      decreases todo
    {
      var host :| host in todo;
      todo := todo - {host};
      if !v(EffectiveFor(e, e.tenants[host], name)) {
        errs := errs + 1;
      }
    }
  }

  class FeatureRegistry {
    var order: seq<string>
    var features: map<string, Validator>
    var current: Edge
    /** The features registered before the first reload began. */
    ghost var early: set<string>
    ghost var reloading: bool
    /** Every tenant snapshot that has ever been current. */
    ghost var published: set<TenantSnapshot>

    /** The values a request can meet, for a feature that accepts the zero value. */
    ghost predicate Valid()
      reads this
    {
      && (forall i | 0 <= i < |order| :: order[i] in features)
      && (forall name | name in features :: name in order)
      && early <= features.Keys
      && (!reloading ==> early == features.Keys && current == Edge(map[], map[]) && published == {})
      && (forall host | host in current.tenants :: current.tenants[host] in published)
      && (forall name | name in early && features[name](ZERO) :: features[name](Effective(current.globals, name)))
      && (forall name, t | name in early && t in published && name in t.features :: features[name](t.features[name]))
    }

    constructor ()
      ensures Valid() && features == map[] && current == Edge(map[], map[])
    {
      order, features, current := [], map[], Edge(map[], map[]);
      early, reloading, published := {}, false, {};
    }

    /** ok is false where the program panics: an empty or duplicate name. */
    method Register(name: string, v: Validator) returns (ok: bool)
      requires Valid()
      modifies this`order, this`features, this`early
      ensures Valid() && ok == (name != "" && name !in old(features))
      ensures !ok ==> order == old(order) && features == old(features) && early == old(early)
      ensures ok ==> order == old(order) + [name] && features == old(features)[name := v]
      ensures ok ==> early == if reloading then old(early) else old(early) + {name}
    {
      if name == "" || name in features {
        return false;
      }
      features := features[name := v];
      order := order + [name];
      if !reloading {
        early := early + {name};
      }
      return true;
    }

    /** A plan covers every early feature with the validator it was registered with. */
    ghost predicate Covers(p: Plan)
      reads this
    {
      reloading && forall name | name in early ::
        name in features && name in p.features && p.features[name] == features[name]
    }

    /** The first half of Reload: validate the candidate against every registered feature. */
    method Prepare(e: Edge) returns (p: Plan)
      requires Valid()
      modifies this`reloading
      ensures Valid() && Covers(p) && p.features == features && p.edge == e
      ensures p.ok <==> Accepts(features, e)
    {
      reloading := true;
      var errs := 0;
      for i := 0 to |order|
        invariant errs == 0 <==> forall j | 0 <= j < i :: FeatureAccepts(features[order[j]], order[j], e)
        invariant Valid() && reloading
      {
        var n := ValidateFeature(features[order[i]], order[i], e);
        errs := errs + n;
      }
      p := Plan(features, e, errs == 0);
    }

    /** The second half: swap the snapshot in, or leave everything as it is. */
    method Publish(p: Plan)
      requires Valid() && Covers(p) && p.ok == Accepts(p.features, p.edge)
      modifies this`current, this`published
      ensures Valid()
      ensures p.ok ==> current == p.edge && published == old(published) + p.edge.tenants.Values
      ensures !p.ok ==> current == old(current) && published == old(published)
    {
      if p.ok {
        current := p.edge;
        published := published + p.edge.tenants.Values;
        assert forall name | name in early :: FeatureAccepts(features[name], name, p.edge);
        forall name, t | name in early && t in published && name in t.features
          ensures features[name](t.features[name])
        {
          if t in p.edge.tenants.Values {
            var host :| host in p.edge.tenants && p.edge.tenants[host] == t;
            assert features[name](EffectiveFor(p.edge, p.edge.tenants[host], name));
          }
        }
      }
    }

    /** Reload as callers see it when nothing falls in between. */
    method Reload(e: Edge) returns (ok: bool)
      requires Valid()
      modifies this`reloading, this`current, this`published
      ensures Valid() && ok == Accepts(features, e)
      ensures current == if ok then e else old(current)
    {
      var p := Prepare(e);
      Publish(p);
      ok := p.ok;
    }

    /** The tenant a request is routed to, taken from the snapshot current at that moment. */
    method Capture(host: string) returns (found: bool, t: TenantSnapshot)
      requires Valid()
      ensures found <==> host in current.tenants
      ensures found ==> t == current.tenants[host] && t in published
    {
      found := host in current.tenants;
      t := if found then current.tenants[host] else TenantSnapshot("", false, map[]);
    }

    /**
      Resolve, at any later time: the tenant may come from an older snapshot
      than the globals, and still every value was accepted by the feature.
     */
    method Resolve(hasTenant: bool, tenant: TenantSnapshot, name: string) returns (fs: FeatureSnapshot)
      requires Valid() && (hasTenant ==> tenant in published || tenant.features == map[])
      ensures fs == if hasTenant && name in tenant.features then tenant.features[name]
                    else if name in current.globals then current.globals[name] else FeatureSnapshot(false, "", 0)
      ensures name in early && features[name](ZERO) ==> features[name](fs)
    {
      if hasTenant && name in tenant.features {
        return tenant.features[name];
      }
      if name in current.globals {
        return current.globals[name];
      }
      return ZERO;
    }
  }
}
