/**
  The configuration records: what the hub stores (internal/config/runtime.go),
  what its events carry (internal/shared/types.go, internal/shared/events.go)
  and what the edge publishes (internal/feature/resolver.go). JSON and YAML
  payloads are kept as the values they encode; params and the fields that no
  modelled code looks at are kept as their text.
 */
module Config {

  datatype FeatureConf = FeatureConf(enabled: bool, params: string)
  datatype BackendConf = BackendConf(addr: string, weight: int)

  datatype TenantConf = TenantConf(
    host: string, enabled: bool, backends: seq<BackendConf>, features: map<string, FeatureConf>, other: string)

  datatype GlobalsConf = GlobalsConf(features: map<string, FeatureConf>, blockDefault: string, other: string)

  const NO_GLOBALS := GlobalsConf(map[], "", "")

  datatype FeatureSnapshot = FeatureSnapshot(enabled: bool, params: string, version: nat)
  datatype BackendRef = BackendRef(onionAddr: string, weight: int)

  datatype TenantInfo = TenantInfo(
    host: string, enabled: bool, backends: seq<BackendRef>, features: map<string, FeatureSnapshot>, version: nat)

  datatype Event =
    | Snapshot(tenants: seq<TenantInfo>, globals: GlobalsConf, version: nat)
    | GlobalsUpdate(globals: GlobalsConf)
    | TenantUpsert(info: TenantInfo)
    | TenantDelete(host: string)
    | Unknown(eventType: string)
    | Malformed(eventType: string)

  datatype TenantSnapshot = TenantSnapshot(host: string, enabled: bool, features: map<string, FeatureSnapshot>)

  /** The published state of an edge: globals features and tenants by lower-case host. */
  datatype Edge = Edge(globals: map<string, FeatureSnapshot>, tenants: map<string, TenantSnapshot>)

  /** tenantInfoFrom: the outward view of a tenant, stamped with the registry version. */
  function TenantInfoFrom(t: TenantConf, version: nat): TenantInfo {
    TenantInfo(
      t.host, t.enabled,
      seq(|t.backends|, i requires 0 <= i < |t.backends| => BackendRef(t.backends[i].addr, t.backends[i].weight)),
      map name | name in t.features :: FeatureSnapshot(t.features[name].enabled, t.features[name].params, version),
      version)
  }

  /** The info says of the tenant what an edge and its transport need, and nothing else. */
  ghost predicate Describes(info: TenantInfo, t: TenantConf, version: nat) {
    && info.host == t.host && info.enabled == t.enabled && info.version == version
    && |info.backends| == |t.backends|
    && (forall i | 0 <= i < |t.backends| ::
          info.backends[i].onionAddr == t.backends[i].addr && info.backends[i].weight == t.backends[i].weight)
    && info.features.Keys == t.features.Keys
    && (forall name | name in t.features ::
          && info.features[name].enabled == t.features[name].enabled
          && info.features[name].params == t.features[name].params
          && info.features[name].version == version)
  }

  /** The only info that describes a tenant is the one that is sent. */
  lemma {:induction false} InfoDescribes(info: TenantInfo, t: TenantConf, version: nat)
    ensures info == TenantInfoFrom(t, version) <==> Describes(info, t, version)
  {
    if Describes(info, t, version) {
      var sent := TenantInfoFrom(t, version);
      assert info.backends == sent.backends;
      assert info.features == sent.features;
    }
  }
}
