/**
  The data directory of internal/hub/storage.go: one YAML file per tenant under
  a sanitised name, and globals.yaml. A file is the value it parses to, or
  malformed. Validation is that of internal/config/runtime.go.
 */
module Storage {
  import opened Config
  import opened Text
  import opened Orders

  // ------------------------------------------------------------------
  // File names.

  function SanitizeChar(c: char): char {
    if 'a' <= c <= 'z' || '0' <= c <= '9' || c == '-' || c == '.' || c == '_' then c else '-'
  }

  function Sanitized(s: string): string {
    if s == "" then "" else Sanitized(s[..|s| - 1]) + [SanitizeChar(s[|s| - 1])]
  }

  function Stem(host: string): string { Sanitized(LowerAll(TrimSpace(host))) }

  method SanitizeHost(host: string) returns (b: string)
    ensures b == Stem(host) && b + ".yaml" == FileName(host)
  {
    var h := LowerAll(TrimSpace(host));
    b := "";
    for i := 0 to |h|
      invariant b == Sanitized(h[..i])
    {
      assert h[..i + 1][..i] == h[..i];
      b := b + [SanitizeChar(h[i])];
    }
    assert h[..|h|] == h;
  }

  const EXT: string := ".yaml"

  predicate HasExt(name: string) { |name| >= |EXT| && LowerAll(name)[|name| - |EXT|..] == EXT }

  function FileName(host: string): (name: string)
    ensures HasExt(name)
  {
    var name := Stem(host) + EXT;
    assert LowerAll(name)[|name| - |EXT|..] == EXT;
    name
  }

  /** How hosts become file names, and which names LoadAll reads. */
  datatype Naming = Naming(name: string -> string, isYaml: string -> bool)

  const NAMING := Naming(FileName, HasExt)

  /** Every name given to a tenant is one that LoadAll reads. */
  ghost predicate WellNamed(n: Naming) { forall h :: n.isYaml(n.name(h)) }

  lemma {:induction false} NamingIsWellNamed()
    ensures WellNamed(NAMING)
  {}

  /** No two of the hosts are stored under the same name. */
  ghost predicate DistinctNames(n: Naming, hosts: set<string>) {
    forall h, k | h in hosts && k in hosts && n.name(h) == n.name(k) :: h == k
  }

  // ------------------------------------------------------------------
  // Contents.

  datatype TenantFile = Parsed(conf: TenantConf) | Malformed
  datatype GlobalsFile = Missing | Present(globals: GlobalsConf) | Broken
  datatype Disk = Disk(globals: GlobalsFile, tenants: map<string, TenantFile>)

  predicate ValidTenant(t: TenantConf) {
    t.host != "" && t.backends != [] && forall i | 0 <= i < |t.backends| :: t.backends[i].addr != ""
  }

  function DefaultWeight(b: BackendConf): BackendConf { if b.weight == 0 then b.(weight := 1) else b }

  /** validateTenant also fills in missing weights. */
  function Normalised(t: TenantConf): (r: TenantConf)
    ensures r.host == t.host
  {
    t.(backends := seq(|t.backends|, i requires 0 <= i < |t.backends| => DefaultWeight(t.backends[i])))
  }

  predicate ValidGlobals(g: GlobalsConf) {
    g.blockDefault in {"", "drop", "timeout", "404", "429"}
  }

  predicate GoodFile(f: TenantFile) { f.Parsed? && ValidTenant(f.conf) }

  predicate LoadableGlobals(f: GlobalsFile) { f.Missing? || (f.Present? && ValidGlobals(f.globals)) }

  function LoadedGlobals(f: GlobalsFile): GlobalsConf { if f.Present? then f.globals else NO_GLOBALS }

  ghost predicate Loadable(n: Naming, d: Disk) {
    LoadableGlobals(d.globals) && AllGood(n, d, d.tenants.Keys)
  }

  /** A good YAML file of host h. */
  predicate Holds(n: Naming, d: Disk, name: string, h: string) {
    name in d.tenants && n.isYaml(name) && GoodFile(d.tenants[name]) && d.tenants[name].conf.host == h
  }

  /** File name carries the tenant t of host h. */
  predicate Source(n: Naming, d: Disk, name: string, h: string, t: TenantConf) {
    Holds(n, d, name, h) && t == Normalised(d.tenants[name].conf)
  }

  /** Of these files of host h this one has the last name; the directory is read in the order of names. */
  ghost predicate LastOf(n: Naming, d: Disk, names: set<string>, name: string, h: string) {
    name in names && forall other | other in names && Holds(n, d, other, h) :: other == name || StrBelow(other, name)
  }

  /** ts is what the good ones among these files say. */
  ghost predicate ReadsAs(n: Naming, d: Disk, names: set<string>, ts: map<string, TenantConf>) {
    && (forall name, h | name in names && Holds(n, d, name, h) :: h in ts)
    && (forall h | h in ts :: exists name :: Source(n, d, name, h, ts[h]) && LastOf(n, d, names, name, h))
  }

  ghost predicate Loads(n: Naming, d: Disk, g: GlobalsConf, ts: map<string, TenantConf>) {
    Loadable(n, d) && g == LoadedGlobals(d.globals) && ReadsAs(n, d, d.tenants.Keys, ts)
  }

  /** A good YAML file replaces what was read for its host. */
  function WithFile(ts: map<string, TenantConf>, yaml: bool, f: TenantFile): map<string, TenantConf> {
    if yaml && GoodFile(f) then ts[f.conf.host := Normalised(f.conf)] else ts
  }

  /** One more file, whose name comes after all before it. */
  lemma {:induction false} ReadNext(n: Naming, d: Disk, names: set<string>, ts: map<string, TenantConf>, name: string)
    requires ReadsAs(n, d, names, ts) && name in d.tenants && (forall k | k in names :: StrBelow(k, name))
    ensures ReadsAs(n, d, names + {name}, WithFile(ts, n.isYaml(name), d.tenants[name]))
  {
    var f := d.tenants[name];
    var ts' := WithFile(ts, n.isYaml(name), f);
    forall h | h in ts'
      ensures exists x :: Source(n, d, x, h, ts'[h]) && LastOf(n, d, names + {name}, x, h)
    {
      if n.isYaml(name) && GoodFile(f) && h == f.conf.host {
        assert Source(n, d, name, h, ts'[h]) && LastOf(n, d, names + {name}, name, h);
      } else {
        var x :| Source(n, d, x, h, ts[h]) && LastOf(n, d, names, x, h);
        assert LastOf(n, d, names + {name}, x, h);
      }
    }
  }

  ghost predicate AllGood(n: Naming, d: Disk, names: set<string>) {
    forall name | name in names && name in d.tenants && n.isYaml(name) :: GoodFile(d.tenants[name])
  }

  lemma {:induction false} GoodNext(n: Naming, d: Disk, names: set<string>, name: string)
    requires name in d.tenants
    ensures AllGood(n, d, names + {name}) == (AllGood(n, d, names) && (n.isYaml(name) ==> GoodFile(d.tenants[name])))
  {}

  /** The loop over the tenant files, in the order of their names. */
  method ReadFiles(n: Naming, d: Disk) returns (ok: bool, ts: map<string, TenantConf>)
    ensures ok == AllGood(n, d, d.tenants.Keys)
    ensures ReadsAs(n, d, d.tenants.Keys, ts)
  {
    ok, ts := true, map[];
    var entries := SortedKeys(d.tenants.Keys);
    ghost var done: set<string> := {};
    for i := 0 to |entries|
      invariant done == Elements(entries[..i])
      invariant ok == AllGood(n, d, done)
      invariant ReadsAs(n, d, done, ts)
    {
      var name := entries[i];
      NextElement(entries, i);
      ReadNext(n, d, done, ts, name);
      GoodNext(n, d, done, name);
      done := done + {name};
      ts := WithFile(ts, n.isYaml(name), d.tenants[name]);
      ok := ok && (n.isYaml(name) ==> GoodFile(d.tenants[name]));
    }
    assert entries[..|entries|] == entries;
  }

  // ------------------------------------------------------------------
  // What loading means, in terms of the files alone.

  ghost predicate RightGlobals(f: GlobalsFile) {
    f.Missing? || (f.Present? && f.globals.blockDefault in {"", "drop", "timeout", "404", "429"})
  }

  /** A host, at least one backend, and an address for each. */
  ghost predicate RightTenant(f: TenantFile) {
    && f.Parsed? && |f.conf.host| > 0 && |f.conf.backends| > 0
    && forall i | 0 <= i < |f.conf.backends| :: |f.conf.backends[i].addr| > 0
  }

  /** The tenant is what the file says, with a weight of one where it gives none. */
  ghost predicate SaidBy(t: TenantConf, f: TenantConf) {
    && t.host == f.host && t.enabled == f.enabled && t.features == f.features && t.other == f.other
    && |t.backends| == |f.backends|
    && forall i | 0 <= i < |f.backends| ::
         && t.backends[i].addr == f.backends[i].addr
         && t.backends[i].weight == if f.backends[i].weight == 0 then 1 else f.backends[i].weight
  }

  /** A right YAML file of host h, and of those the one with the last name. */
  ghost predicate LastFile(n: Naming, d: Disk, name: string, h: string) {
    && name in d.tenants && n.isYaml(name) && RightTenant(d.tenants[name]) && d.tenants[name].conf.host == h
    && forall other | other in d.tenants && n.isYaml(other) && RightTenant(d.tenants[other])
                      && d.tenants[other].conf.host == h :: other == name || StrBelow(other, name)
  }

  /** Every right file has its tenant, and every tenant is what its last file says. */
  ghost predicate LoadedFrom(n: Naming, d: Disk, ts: map<string, TenantConf>) {
    && (forall name | name in d.tenants && n.isYaml(name) && RightTenant(d.tenants[name]) ::
          d.tenants[name].conf.host in ts)
    && (forall h | h in ts :: exists name :: LastFile(n, d, name, h) && SaidBy(ts[h], d.tenants[name].conf))
  }

  lemma {:induction false} RightIsGood(f: TenantFile)
    ensures GoodFile(f) <==> RightTenant(f)
  {}

  lemma {:induction false} NormalisedSays(t: TenantConf)
    ensures SaidBy(Normalised(t), t)
  {}

  lemma {:induction false} ReadsAreLoaded(n: Naming, d: Disk, ts: map<string, TenantConf>)
    requires ReadsAs(n, d, d.tenants.Keys, ts)
    ensures LoadedFrom(n, d, ts)
  {
    forall name | name in d.tenants && n.isYaml(name) && RightTenant(d.tenants[name])
      ensures d.tenants[name].conf.host in ts
    {
      assert Holds(n, d, name, d.tenants[name].conf.host);
    }
    forall h | h in ts
      ensures exists name :: LastFile(n, d, name, h) && SaidBy(ts[h], d.tenants[name].conf)
    {
      var name :| Source(n, d, name, h, ts[h]) && LastOf(n, d, d.tenants.Keys, name, h);
      NormalisedSays(d.tenants[name].conf);
      assert LastFile(n, d, name, h);
    }
  }

  lemma {:induction false} LoadableIff(n: Naming, d: Disk)
    ensures LoadableGlobals(d.globals) <==> RightGlobals(d.globals)
    ensures Loadable(n, d) <==>
            RightGlobals(d.globals) && forall name | name in d.tenants && n.isYaml(name) :: RightTenant(d.tenants[name])
  {}

  /** The characters that stay in a file name. */
  ghost predicate Plain(c: char) {
    97 <= c as int <= 122 || 48 <= c as int <= 57 || c as int == 45 || c as int == 46 || c as int == 95
  }

  /** The trimmed host in lower case, a dash for everything that could mean something in a path, and .yaml. */
  lemma {:induction false} FileNameSays(host: string)
    ensures var low, name := LowerAll(TrimSpace(host)), FileName(host);
            && |name| == |low| + 5 && name[|low|..] == ".yaml"
            && forall i | 0 <= i < |low| :: name[i] == if Plain(low[i]) then low[i] else '-'
  {
    SanitizedChars(LowerAll(TrimSpace(host)));
  }

  lemma {:induction false} YamlIff(name: string)
    ensures HasExt(name) <==> |name| >= 5 && LowerAll(name[|name| - 5..]) == ".yaml"
  {
    if |name| >= 5 {
      assert LowerAll(name)[|name| - 5..] == LowerAll(name[|name| - 5..]);
    }
  }

  /** Reads what it can; ok is false when something could not be read. */
  method LoadAll(n: Naming, d: Disk) returns (ok: bool, g: GlobalsConf, ts: map<string, TenantConf>)
    ensures ok == Loadable(n, d)
    ensures LoadableGlobals(d.globals) ==> g == LoadedGlobals(d.globals) && ReadsAs(n, d, d.tenants.Keys, ts)
    ensures !LoadableGlobals(d.globals) ==> g == NO_GLOBALS && ts == map[]
    ensures ok ==> Loads(n, d, g, ts)
    ensures ok <==> RightGlobals(d.globals)
                    && forall name | name in d.tenants && n.isYaml(name) :: RightTenant(d.tenants[name])
    ensures RightGlobals(d.globals) ==> LoadedFrom(n, d, ts) == true
  {
    LoadableIff(n, d);
    if !LoadableGlobals(d.globals) {
      return false, NO_GLOBALS, map[];
    }
    g := LoadedGlobals(d.globals);
    ok, ts := ReadFiles(n, d);
    ReadsAreLoaded(n, d, ts);
  }

  /** A directory loads as one state only. */
  lemma {:induction false} LoadsUnique(
    n: Naming, d: Disk, g: GlobalsConf, ts: map<string, TenantConf>, g': GlobalsConf, ts': map<string, TenantConf>)
    requires Loads(n, d, g, ts) && Loads(n, d, g', ts')
    ensures g == g' && ts == ts'
  {
    OneReading(n, d, ts, ts');
    OneReading(n, d, ts', ts);
  }

  lemma {:induction false} OneReading(n: Naming, d: Disk, ts: map<string, TenantConf>, ts': map<string, TenantConf>)
    requires ReadsAs(n, d, d.tenants.Keys, ts) && ReadsAs(n, d, d.tenants.Keys, ts')
    ensures forall h | h in ts :: h in ts' && ts'[h] == ts[h]
  {
    forall h | h in ts
      ensures h in ts' && ts'[h] == ts[h]
    {
      var x :| Source(n, d, x, h, ts[h]) && LastOf(n, d, d.tenants.Keys, x, h);
      assert h in ts';
      var y :| Source(n, d, y, h, ts'[h]) && LastOf(n, d, d.tenants.Keys, y, h);
      if x != y {
        StrAsymmetric(y, x);
      }
    }
  }

  // ------------------------------------------------------------------
  // Disk and memory.

  function WriteTenant(n: Naming, d: Disk, t: TenantConf): Disk {
    d.(tenants := d.tenants[n.name(t.host) := Parsed(t)])
  }
  function DeleteTenantFile(n: Naming, d: Disk, host: string): Disk { d.(tenants := d.tenants - {n.name(host)}) }
  function WriteGlobals(d: Disk, g: GlobalsConf): Disk { d.(globals := Present(g)) }

  /** Every YAML file is a valid tenant stored under its own name. */
  ghost predicate TidyFiles(n: Naming, d: Disk) {
    forall name | name in d.tenants && n.isYaml(name) ::
      GoodFile(d.tenants[name]) && name == n.name(d.tenants[name].conf.host)
  }

  /** Every YAML file is one of the tenants under its own name, and every tenant has its file. */
  ghost predicate FilesMatch(n: Naming, d: Disk, ts: map<string, TenantConf>) {
    && TidyFiles(n, d)
    && (forall name | name in d.tenants && n.isYaml(name) :: d.tenants[name].conf.host in ts)
    && (forall h | h in ts :: Source(n, d, n.name(h), h, ts[h]))
  }

  ghost predicate Matches(n: Naming, d: Disk, g: GlobalsConf, ts: map<string, TenantConf>) {
    LoadableGlobals(d.globals) && g == LoadedGlobals(d.globals) && FilesMatch(n, d, ts)
  }

  /** A matching disk loads as memory and as nothing else. */
  lemma {:induction false} MatchesLoads(n: Naming, d: Disk, g: GlobalsConf, ts: map<string, TenantConf>)
    requires Matches(n, d, g, ts)
    ensures Loads(n, d, g, ts)
    ensures forall g', ts' :: Loads(n, d, g', ts') <==> g' == g && ts' == ts
  {
    forall h | h in ts
      ensures exists name :: Source(n, d, name, h, ts[h]) && LastOf(n, d, d.tenants.Keys, name, h)
    {
      assert Source(n, d, n.name(h), h, ts[h]) && LastOf(n, d, d.tenants.Keys, n.name(h), h);
    }
    forall g', ts' | Loads(n, d, g', ts')
      ensures g' == g && ts' == ts
    {
      LoadsUnique(n, d, g, ts, g', ts');
    }
  }

  /** A tidy directory that loads matches what was loaded. */
  lemma {:induction false} TidyLoadMatches(n: Naming, d: Disk, g: GlobalsConf, ts: map<string, TenantConf>)
    requires Loads(n, d, g, ts) && TidyFiles(n, d)
    ensures Matches(n, d, g, ts)
  {
    forall h | h in ts
      ensures Source(n, d, n.name(h), h, ts[h])
    {
      var name :| Source(n, d, name, h, ts[h]) && LastOf(n, d, d.tenants.Keys, name, h);
      assert name == n.name(h);
    }
    forall name | name in d.tenants && n.isYaml(name)
      ensures d.tenants[name].conf.host in ts
    {
      assert Holds(n, d, name, d.tenants[name].conf.host);
    }
  }

  lemma {:induction false} MatchedIsDistinct(n: Naming, d: Disk, g: GlobalsConf, ts: map<string, TenantConf>)
    requires Matches(n, d, g, ts)
    ensures DistinctNames(n, ts.Keys)
  {
    forall h, k | h in ts && k in ts && n.name(h) == n.name(k)
      ensures h == k
    {
      assert Source(n, d, n.name(h), h, ts[h]) && Source(n, d, n.name(k), k, ts[k]);
    }
  }

  /** No other tenant is stored under the name of host. */
  ghost predicate NameFree(n: Naming, ts: map<string, TenantConf>, host: string) {
    forall h | h in ts && h != host :: n.name(h) != n.name(host)
  }

  lemma {:induction false} WriteMatches(n: Naming, d: Disk, g: GlobalsConf, ts: map<string, TenantConf>, t: TenantConf)
    requires WellNamed(n) && Matches(n, d, g, ts) && NameFree(n, ts, t.host)
    requires ValidTenant(t) && Normalised(t) == t
    ensures Matches(n, WriteTenant(n, d, t), g, ts[t.host := t])
  {
    var d', ts' := WriteTenant(n, d, t), ts[t.host := t];
    forall h | h in ts'
      ensures Source(n, d', n.name(h), h, ts'[h])
    {
      if h != t.host {
        assert Source(n, d, n.name(h), h, ts[h]);
      }
    }
  }

  /** Disk and memory still agree after a write exactly when the tenant is valid, normalised and has its own file. */
  lemma {:induction false} WriteMatchesIff(
    n: Naming, d: Disk, g: GlobalsConf, ts: map<string, TenantConf>, t: TenantConf)
    requires WellNamed(n) && Matches(n, d, g, ts)
    ensures Matches(n, WriteTenant(n, d, t), g, ts[t.host := t])
            <==> ValidTenant(t) && Normalised(t) == t && NameFree(n, ts, t.host)
  {
    var d', ts' := WriteTenant(n, d, t), ts[t.host := t];
    if ValidTenant(t) && Normalised(t) == t && NameFree(n, ts, t.host) {
      WriteMatches(n, d, g, ts, t);
    } else if Matches(n, d', g, ts') {
      WrittenIsProper(n, d, g, ts, t);
    }
  }

  lemma {:induction false} WrittenIsProper(
    n: Naming, d: Disk, g: GlobalsConf, ts: map<string, TenantConf>, t: TenantConf)
    requires Matches(n, WriteTenant(n, d, t), g, ts[t.host := t])
    ensures ValidTenant(t) && Normalised(t) == t && NameFree(n, ts, t.host)
  {
    var d', ts' := WriteTenant(n, d, t), ts[t.host := t];
    assert Source(n, d', n.name(t.host), t.host, ts'[t.host]);
    MatchedIsDistinct(n, d', g, ts');
    forall h | h in ts && h != t.host
      ensures n.name(h) != n.name(t.host)
    {
      assert h in ts'.Keys && t.host in ts'.Keys;
    }
  }

  lemma {:induction false} DeleteMatches(n: Naming, d: Disk, g: GlobalsConf, ts: map<string, TenantConf>, host: string)
    requires WellNamed(n) && Matches(n, d, g, ts) && NameFree(n, ts, host)
    ensures Matches(n, DeleteTenantFile(n, d, host), g, ts - {host})
  {
    var d', ts' := DeleteTenantFile(n, d, host), ts - {host};
    forall h | h in ts'
      ensures Source(n, d', n.name(h), h, ts'[h])
    {
      assert Source(n, d, n.name(h), h, ts[h]);
    }
    forall name | name in d'.tenants && n.isYaml(name)
      ensures d'.tenants[name].conf.host in ts'
    {
      assert d.tenants[name].conf.host in ts;
    }
  }

  /** After a delete, known host or not, exactly when the file that went was nobody else's. */
  lemma {:induction false} DeleteMatchesIff(
    n: Naming, d: Disk, g: GlobalsConf, ts: map<string, TenantConf>, host: string)
    requires WellNamed(n) && Matches(n, d, g, ts)
    ensures Matches(n, DeleteTenantFile(n, d, host), g, ts - {host}) <==> NameFree(n, ts, host)
  {
    if NameFree(n, ts, host) {
      DeleteMatches(n, d, g, ts, host);
    } else {
      var h :| h in ts && h != host && n.name(h) == n.name(host);
      assert h in ts - {host} && !Source(n, DeleteTenantFile(n, d, host), n.name(h), h, ts[h]);
    }
  }

  /**
    Two hosts with one file name cannot both be stored: writing the second
    drops the first from every later load, while memory keeps both.
   */
  lemma {:induction false} SharedNameLosesTenant(
    n: Naming, d: Disk, a: TenantConf, b: TenantConf, g: GlobalsConf, ts: map<string, TenantConf>)
    requires a.host != b.host && n.name(a.host) == n.name(b.host)
    requires forall name | Holds(n, d, name, a.host) :: name == n.name(a.host)
    requires Loads(n, WriteTenant(n, WriteTenant(n, d, a), b), g, ts)
    ensures a.host !in ts
  {
    var d' := WriteTenant(n, WriteTenant(n, d, a), b);
    forall name
      ensures !Holds(n, d', name, a.host)
    {
      assert name != n.name(a.host) ==> !Holds(n, d, name, a.host);
    }
  }

  // ------------------------------------------------------------------
  // Storing any tenants.

  const NO_FILES := Disk(Missing, map[])

  function WriteEach(n: Naming, stored: seq<TenantConf>): Disk {
    if stored == [] then NO_FILES
    else WriteTenant(n, WriteEach(n, stored[..|stored| - 1]), stored[|stored| - 1])
  }

  /** What memory holds after storing these tenants in order. */
  function InMemory(stored: seq<TenantConf>): map<string, TenantConf> {
    if stored == [] then map[]
    else InMemory(stored[..|stored| - 1])[stored[|stored| - 1].host := stored[|stored| - 1]]
  }

  ghost predicate AllProper(stored: seq<TenantConf>) {
    forall i | 0 <= i < |stored| :: ValidTenant(stored[i]) && Normalised(stored[i]) == stored[i]
  }

  lemma {:induction false} WritesAreTidy(n: Naming, stored: seq<TenantConf>)
    requires AllProper(stored)
    ensures TidyFiles(n, WriteEach(n, stored)) && WriteEach(n, stored).globals == Missing
    decreases |stored|
  {
    if stored != [] {
      WritesAreTidy(n, stored[..|stored| - 1]);
    }
  }

  lemma {:induction false} WritesMatch(n: Naming, stored: seq<TenantConf>)
    requires WellNamed(n) && AllProper(stored) && DistinctNames(n, InMemory(stored).Keys)
    ensures Matches(n, WriteEach(n, stored), NO_GLOBALS, InMemory(stored))
    decreases |stored|
  {
    if stored != [] {
      var before, t := stored[..|stored| - 1], stored[|stored| - 1];
      assert InMemory(before).Keys <= InMemory(stored).Keys && t.host in InMemory(stored).Keys;
      WritesMatch(n, before);
      WriteMatches(n, WriteEach(n, before), NO_GLOBALS, InMemory(before), t);
    }
  }

  /**
    Whatever is stored, in any order and however often: it all loads back exactly
    when no two hosts share a file name.
   */
  lemma {:induction false} StoredLoadsIff(n: Naming, stored: seq<TenantConf>)
    requires WellNamed(n) && AllProper(stored)
    ensures Loads(n, WriteEach(n, stored), NO_GLOBALS, InMemory(stored)) <==> DistinctNames(n, InMemory(stored).Keys)
  {
    if DistinctNames(n, InMemory(stored).Keys) {
      WritesMatch(n, stored);
      MatchesLoads(n, WriteEach(n, stored), NO_GLOBALS, InMemory(stored));
    } else if Loads(n, WriteEach(n, stored), NO_GLOBALS, InMemory(stored)) {
      WritesAreTidy(n, stored);
      TidyLoadMatches(n, WriteEach(n, stored), NO_GLOBALS, InMemory(stored));
      MatchedIsDistinct(n, WriteEach(n, stored), NO_GLOBALS, InMemory(stored));
    }
  }

  /** Under the program's own naming a blank and a dash make the same file: of these two hosts only one survives. */
  lemma {:induction false} BlankAndDashCollide(stored: seq<TenantConf>)
    requires AllProper(stored) && |stored| == 2 && stored[0].host == "a b" && stored[1].host == "a-b"
    ensures !Loads(NAMING, WriteEach(NAMING, stored), NO_GLOBALS, InMemory(stored))
  {
    NamingIsWellNamed();
    SameStem();
    var a, b := stored[0], stored[1];
    assert stored == [a, b] && stored[..1] == [a] && [a][..0] == [];
    assert InMemory([a]) == map[a.host := a];
    assert a.host in InMemory(stored) && b.host in InMemory(stored) && NAMING.name(a.host) == NAMING.name(b.host);
    StoredLoadsIff(NAMING, stored);
  }

  lemma {:induction false} SameStem()
    ensures FileName("a b") == FileName("a-b")
  {
    assert TrimSpace("a b") == "a b" && TrimSpace("a-b") == "a-b";
    assert LowerAll("a b") == "a b" && LowerAll("a-b") == "a-b";
    SanitizedChars("a b");
    SanitizedChars("a-b");
    assert Sanitized("a b") == Sanitized("a-b");
  }

  lemma {:induction false} SanitizedChars(s: string)
    ensures |Sanitized(s)| == |s| && forall i | 0 <= i < |s| :: Sanitized(s)[i] == SanitizeChar(s[i])
    decreases |s|
  {
    if s != "" {
      SanitizedChars(s[..|s| - 1]);
    }
  }
}
