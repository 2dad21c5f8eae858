/**
  The tenant registry of internal/hub/registry.go. Each public operation is one
  step. `subs` holds, per subscriber, every event enqueued for it so far; what
  bounded queues do to that stream is the subject of module Pipeline.
 */
module Hub {
  import opened Config
  import opened Text
  import opened EdgeFold
  import opened Storage
  import opened Orders
  import opened Diff

  function SendAll(subs: map<nat, seq<Event>>, evs: seq<Event>): map<nat, seq<Event>> {
    map id | id in subs :: subs[id] + evs
  }

  /** Each of these subscribers has been sent a stream that makes any edge show this state. */
  ghost predicate AllMirror(subs: map<nat, seq<Event>>, inStep: set<nat>, g: GlobalsConf, ts: map<string, TenantConf>) {
    forall id | id in inStep :: id in subs && Mirrors(subs[id], g, ts)
  }

  lemma {:induction false} SendKeepsMirrors(
    subs: map<nat, seq<Event>>, inStep: set<nat>, evs: seq<Event>,
    g: GlobalsConf, ts: map<string, TenantConf>, g': GlobalsConf, ts': map<string, TenantConf>)
    requires AllMirror(subs, inStep, g, ts) && Carries(evs, g, ts, g', ts')
    ensures AllMirror(SendAll(subs, evs), inStep, g', ts')
  {
    forall id | id in inStep
      ensures id in SendAll(subs, evs) && Mirrors(SendAll(subs, evs)[id], g', ts')
    {
      MirrorsExtend(subs[id], evs, g, ts, g', ts');
    }
  }

  lemma {:induction false} SendNothing(subs: map<nat, seq<Event>>)
    ensures SendAll(subs, []) == subs
  {
    forall id | id in subs ensures subs[id] + [] == subs[id] {}
  }

  /** The tenants of a snapshot are sorted. */
  ghost predicate ByHost(infos: seq<TenantInfo>) {
    forall i, j | 0 <= i < j < |infos| :: StrBelow(infos[i].host, infos[j].host)
  }

  /** Each tenant once, at this version, by host. */
  ghost predicate Lists(infos: seq<TenantInfo>, ts: map<string, TenantConf>, version: nat) {
    Enumerates(infos, ts, ts.Keys, version) && ByHost(infos)
  }

  /** The stream consists of a snapshot of this state. */
  ghost predicate Opens(stream: seq<Event>, g: GlobalsConf, ts: map<string, TenantConf>, version: nat) {
    |stream| == 1 && stream[0].Snapshot? && stream[0].globals == g && Lists(stream[0].tenants, ts, version)
  }

  /** A newcomer is in step exactly when the state it is sent is compatible. */
  ghost function WithNewcomer(inStep: set<nat>, id: nat, ts: map<string, TenantConf>): set<nat> {
    if Compatible(ts) then inStep + {id} else inStep - {id}
  }

  /** The value of a registry. */
  datatype State = State(globals: GlobalsConf, tenants: map<string, TenantConf>, disk: Disk, subs: map<nat, seq<Event>>)

  /**
    All that a registry holds, with what is known of its subscribers and its
    directory. ready: the tenant map was allocated. stuck: the lock is held
    for good, by a call that panicked. boot and edits are the directories read
    at the start and since; lower says that no host was ever other than lower
    case.
   */
  datatype Book = Book(
    state: State, version: nat, nextSub: nat, closed: bool, ready: bool, stuck: bool,
    inStep: set<nat>, tidy: bool, lower: bool, boot: Disk, edits: seq<Disk>)

  /** What becomes of a call: a blocked one never returns. */
  datatype Answer = Refused | Done | Panicked | Blocked

  /** Subscribers stay in step through a safe change, and none is counted on after another. */
  function StillInStep(inStep: set<nat>, safe: bool): set<nat> { if safe then inStep else {} }

  /** The subscribers in step mirror the state, and a tidy directory matches it. */
  ghost predicate Good(n: Naming, s: State, inStep: set<nat>, tidy: bool) {
    && WellNamed(n) && Keyed(s.tenants)
    && AllMirror(s.subs, inStep, s.globals, s.tenants)
    && (tidy ==> Matches(n, s.disk, s.globals, s.tenants))
  }

  /** Any operation whose events carry the old state to the new one keeps the subscribers in step. */
  lemma {:induction false} CarriedReplicates(s: State, s': State, inStep: set<nat>, safe: bool, evs: seq<Event>)
    requires AllMirror(s.subs, inStep, s.globals, s.tenants)
    requires safe ==> Carries(evs, s.globals, s.tenants, s'.globals, s'.tenants)
    requires s'.subs == SendAll(s.subs, evs)
    ensures AllMirror(s'.subs, StillInStep(inStep, safe), s'.globals, s'.tenants)
  {
    if safe {
      SendKeepsMirrors(s.subs, inStep, evs, s.globals, s.tenants, s'.globals, s'.tenants);
    }
  }

  function AfterUpsert(n: Naming, s: State, t: TenantConf, version: nat): State {
    State(s.globals, s.tenants[t.host := t], WriteTenant(n, s.disk, t),
          SendAll(s.subs, [TenantUpsert(TenantInfoFrom(t, version))]))
  }

  /** Edges follow an upsert exactly when the tenants it leads to are compatible. */
  ghost predicate UpsertSafe(s: State, t: TenantConf) { Compatible(s.tenants[t.host := t]) }

  ghost predicate UpsertTidy(n: Naming, s: State, t: TenantConf) {
    ValidTenant(t) && Normalised(t) == t && NameFree(n, s.tenants, t.host)
  }

  lemma {:induction false} UpsertKeepsGood(
    n: Naming, s: State, inStep: set<nat>, tidy: bool, t: TenantConf, version: nat)
    requires Good(n, s, inStep, tidy)
    ensures Good(n, AfterUpsert(n, s, t, version),
                 StillInStep(inStep, UpsertSafe(s, t)), tidy && UpsertTidy(n, s, t))
  {
    var s' := AfterUpsert(n, s, t, version);
    if UpsertSafe(s, t) {
      UpsertCarries(s.globals, s.tenants, t, version);
    }
    CarriedReplicates(s, s', inStep, UpsertSafe(s, t), [TenantUpsert(TenantInfoFrom(t, version))]);
    if tidy && UpsertTidy(n, s, t) {
      WriteMatches(n, s.disk, s.globals, s.tenants, t);
    }
  }

  /** A delete is announced only when the tenant existed; the file is removed in any case. */
  function AfterDelete(n: Naming, s: State, host: string): State {
    State(s.globals, s.tenants - {host}, DeleteTenantFile(n, s.disk, host),
          if host in s.tenants then SendAll(s.subs, [TenantDelete(host)]) else s.subs)
  }

  ghost predicate DeleteSafe(s: State, host: string) { host in s.tenants ==> Alone(s.tenants, host) }

  lemma {:induction false} DeleteKeepsGood(n: Naming, s: State, inStep: set<nat>, tidy: bool, host: string)
    requires Good(n, s, inStep, tidy)
    ensures Good(n, AfterDelete(n, s, host),
                 StillInStep(inStep, DeleteSafe(s, host)), tidy && NameFree(n, s.tenants, host))
  {
    var s' := AfterDelete(n, s, host);
    if host in s.tenants {
      if Alone(s.tenants, host) {
        DeleteCarries(s.globals, s.tenants, host);
      }
      CarriedReplicates(s, s', inStep, DeleteSafe(s, host), [TenantDelete(host)]);
    } else {
      assert s'.tenants == s.tenants;
    }
    if tidy && NameFree(n, s.tenants, host) {
      DeleteMatches(n, s.disk, s.globals, s.tenants, host);
    }
  }

  function AfterGlobals(s: State, g: GlobalsConf): State {
    State(g, s.tenants, WriteGlobals(s.disk, g), SendAll(s.subs, [GlobalsUpdate(g)]))
  }

  lemma {:induction false} GlobalsKeepGood(n: Naming, s: State, inStep: set<nat>, tidy: bool, g: GlobalsConf)
    requires Good(n, s, inStep, tidy)
    ensures Good(n, AfterGlobals(s, g), inStep, tidy && ValidGlobals(g))
  {
    GlobalsCarries(s.globals, s.tenants, g);
    CarriedReplicates(s, AfterGlobals(s, g), inStep, true, [GlobalsUpdate(g)]);
  }

  lemma {:induction false} SubscribeKeepsGood(
    n: Naming, s: State, inStep: set<nat>, tidy: bool, id: nat, infos: seq<TenantInfo>, version: nat)
    requires Good(n, s, inStep, tidy) && Lists(infos, s.tenants, version)
    ensures Good(n, State(s.globals, s.tenants, s.disk, s.subs[id := [Snapshot(infos, s.globals, version)]]),
                 WithNewcomer(inStep, id, s.tenants), tidy)
    ensures Opens([Snapshot(infos, s.globals, version)], s.globals, s.tenants, version)
  {
    SnapshotMirrors(infos, s.globals, s.tenants, version);
  }

  /** Adopting a directory that loads, and sending the difference. */
  lemma {:induction false} AdoptKeepsGood(
    n: Naming, s: State, inStep: set<nat>, tidy: bool, d: Disk, g: GlobalsConf, ts: map<string, TenantConf>,
    evs: seq<Event>)
    requires Good(n, s, inStep, tidy) && Loads(n, d, g, ts)
    requires DiffSafe(s.tenants, ts) ==> Carries(evs, s.globals, s.tenants, g, ts)
    ensures Good(n, State(g, ts, d, SendAll(s.subs, evs)),
                 StillInStep(inStep, DiffSafe(s.tenants, ts)), TidyFiles(n, d))
  {
    ReadIsKeyed(n, d, d.tenants.Keys, ts);
    CarriedReplicates(s, State(g, ts, d, SendAll(s.subs, evs)), inStep, DiffSafe(s.tenants, ts), evs);
    if TidyFiles(n, d) {
      TidyLoadMatches(n, d, g, ts);
    }
  }

  /** Neither the globals at the start nor any edit since could be loaded. */
  ghost predicate NeverLoaded(n: Naming, boot: Disk, edits: seq<Disk>) {
    !LoadableGlobals(boot.globals) && forall i | 0 <= i < |edits| :: !Loadable(n, edits[i])
  }

  /** There is no tenant map exactly when nothing was ever loaded; only then can a call panic with the lock held. */
  ghost predicate MapOk(n: Naming, b: Book) {
    && (b.ready <==> !NeverLoaded(n, b.boot, b.edits))
    && (!b.ready ==> b.state.tenants == map[] && !b.tidy)
    && (b.stuck ==> !b.ready)
  }

  predicate IsLower(host: string) { LowerAll(host) == host }

  ghost predicate AllLower(ts: map<string, TenantConf>) { forall h | h in ts :: IsLower(h) }

  /** Without upper case nobody can be out of step. */
  ghost predicate LowerOk(b: Book) {
    b.lower ==> AllLower(b.state.tenants) && b.inStep == b.state.subs.Keys
  }

  /** Subscriber numbers are never reused. */
  ghost predicate Numbered(b: Book) {
    (forall id | id in b.state.subs :: id < b.nextSub) && b.inStep <= b.state.subs.Keys
  }

  /** The subscribers in step mirror the state, and a tidy directory matches it. */
  ghost predicate Sound(n: Naming, b: Book) {
    Good(n, b.state, b.inStep, b.tidy) && Numbered(b) && MapOk(n, b) && LowerOk(b)
  }

  /**
    Lower-case tenants are compatible, differ safely from any others of that kind,
    and have their entries to themselves.
   */
  lemma {:induction false} LowerIsSafe(t: map<string, TenantConf>, t': map<string, TenantConf>)
    requires AllLower(t) && AllLower(t')
    ensures Compatible(t') && DiffSafe(t, t') && forall h | h in t :: Alone(t, h)
  {}

  ghost function Upserted(n: Naming, b: Book, t: TenantConf): Book {
    b.(state := AfterUpsert(n, b.state, t, b.version + 1), version := b.version + 1,
       inStep := StillInStep(b.inStep, UpsertSafe(b.state, t)), tidy := b.tidy && UpsertTidy(n, b.state, t),
       lower := b.lower && IsLower(t.host))
  }

  ghost function Deleted(n: Naming, b: Book, host: string): Book {
    b.(state := AfterDelete(n, b.state, host), version := if host in b.state.tenants then b.version + 1 else b.version,
       inStep := StillInStep(b.inStep, DeleteSafe(b.state, host)), tidy := b.tidy && NameFree(n, b.state.tenants, host))
  }

  ghost function GlobalsSet(b: Book, g: GlobalsConf): Book {
    b.(state := AfterGlobals(b.state, g), version := b.version + 1, tidy := b.tidy && ValidGlobals(g))
  }

  ghost function Adopted(
    n: Naming, b: Book, d: Disk, g: GlobalsConf, ts: map<string, TenantConf>, evs: seq<Event>): Book
  {
    b.(state := State(g, ts, d, SendAll(b.state.subs, evs)), version := b.version + 1,
       inStep := StillInStep(b.inStep, DiffSafe(b.state.tenants, ts)), tidy := TidyFiles(n, d),
       lower := b.lower && AllLower(ts), ready := true, edits := b.edits + [d])
  }

  /** The directory changed and memory did not. */
  ghost function Touched(b: Book, d: Disk): Book {
    b.(state := State(b.state.globals, b.state.tenants, d, b.state.subs), tidy := false)
  }

  ghost function Rejected(b: Book, d: Disk): Book { Touched(b, d).(edits := b.edits + [d]) }

  /** The file is written, then the assignment to the nil map panics between Lock and Unlock. */
  ghost function Stuck(n: Naming, b: Book, t: TenantConf): Book {
    Touched(b, WriteTenant(n, b.state.disk, t)).(stuck := true)
  }

  ghost function Subscribed(b: Book, stream: seq<Event>): Book {
    b.(state := State(b.state.globals, b.state.tenants, b.state.disk, b.state.subs[b.nextSub := stream]),
       nextSub := b.nextSub + 1, inStep := WithNewcomer(b.inStep, b.nextSub, b.state.tenants))
  }

  ghost function Left(b: Book, subs: map<nat, seq<Event>>, closed: bool): Book {
    b.(state := State(b.state.globals, b.state.tenants, b.state.disk, subs),
       inStep := b.inStep * subs.Keys, closed := closed)
  }

  lemma {:induction false} SendKeepsNumbers(b: Book, b': Book, evs: seq<Event>, safe: bool)
    requires Numbered(b) && b'.state.subs == SendAll(b.state.subs, evs) && b'.nextSub == b.nextSub
    requires b'.inStep == StillInStep(b.inStep, safe)
    ensures Numbered(b')
  {}

  /** While all stays in lower case nobody falls out of step. */
  lemma {:induction false} SendKeepsLower(b: Book, b': Book, evs: seq<Event>)
    requires LowerOk(b) && b'.state.subs == SendAll(b.state.subs, evs)
    requires b'.lower ==> b.lower && AllLower(b'.state.tenants) && b'.inStep == b.inStep
    ensures LowerOk(b')
  {}

  lemma {:induction false} UpsertKeepsLower(n: Naming, b: Book, t: TenantConf)
    requires LowerOk(b)
    ensures LowerOk(Upserted(n, b, t))
  {
    if b.lower && IsLower(t.host) {
      LowerIsSafe(b.state.tenants, b.state.tenants[t.host := t]);
    }
    SendKeepsLower(b, Upserted(n, b, t), [TenantUpsert(TenantInfoFrom(t, b.version + 1))]);
  }

  lemma {:induction false} UpsertKeepsSound(n: Naming, b: Book, t: TenantConf)
    requires Sound(n, b) == true && b.ready
    ensures Sound(n, Upserted(n, b, t)) == true
  {
    SendKeepsNumbers(b, Upserted(n, b, t), [TenantUpsert(TenantInfoFrom(t, b.version + 1))], UpsertSafe(b.state, t));
    UpsertKeepsLower(n, b, t);
    UpsertKeepsGood(n, b.state, b.inStep, b.tidy, t, b.version + 1);
  }

  lemma {:induction false} DeleteKeepsLower(n: Naming, b: Book, host: string)
    requires LowerOk(b)
    ensures LowerOk(Deleted(n, b, host))
  {
    if b.lower {
      LowerIsSafe(b.state.tenants, b.state.tenants);
    }
    if host in b.state.tenants {
      SendKeepsLower(b, Deleted(n, b, host), [TenantDelete(host)]);
    }
  }

  lemma {:induction false} DeleteKeepsSound(n: Naming, b: Book, host: string)
    requires Sound(n, b) == true
    ensures Sound(n, Deleted(n, b, host)) == true
  {
    if host in b.state.tenants {
      SendKeepsNumbers(b, Deleted(n, b, host), [TenantDelete(host)], DeleteSafe(b.state, host));
    }
    DeleteKeepsLower(n, b, host);
    DeleteKeepsGood(n, b.state, b.inStep, b.tidy, host);
  }

  lemma {:induction false} GlobalsKeepSound(n: Naming, b: Book, g: GlobalsConf)
    requires Sound(n, b)
    ensures Sound(n, GlobalsSet(b, g))
  {
    SendKeepsNumbers(b, GlobalsSet(b, g), [GlobalsUpdate(g)], true);
    SendKeepsLower(b, GlobalsSet(b, g), [GlobalsUpdate(g)]);
    GlobalsKeepGood(n, b.state, b.inStep, b.tidy, g);
  }

  lemma {:induction false} EditsGrow(n: Naming, boot: Disk, edits: seq<Disk>, d: Disk)
    ensures NeverLoaded(n, boot, edits + [d]) <==> NeverLoaded(n, boot, edits) && !Loadable(n, d)
  {
    assert (edits + [d])[|edits|] == d;
    assert forall i | 0 <= i < |edits| :: (edits + [d])[i] == edits[i];
  }

  lemma {:induction false} RejectKeepsSound(n: Naming, b: Book, d: Disk)
    requires Sound(n, b) == true && !Loadable(n, d)
    ensures Sound(n, Rejected(b, d)) == true
  {
    EditsGrow(n, b.boot, b.edits, d);
  }

  lemma {:induction false} TouchKeepsSound(n: Naming, b: Book, d: Disk)
    requires Sound(n, b) == true
    ensures Sound(n, Touched(b, d)) == true
  {}

  lemma {:induction false} PanicKeepsSound(n: Naming, b: Book, t: TenantConf)
    requires Sound(n, b) == true && !b.ready
    ensures Sound(n, Stuck(n, b, t)) == true
  {}

  /** A tidy directory loads as the state in memory and as no other. */
  lemma {:induction false} OwnDirectoryLoads(n: Naming, b: Book)
    requires Sound(n, b) && b.tidy
    ensures Loadable(n, b.state.disk) && TidyFiles(n, b.state.disk)
  {
    MatchesLoads(n, b.state.disk, b.state.globals, b.state.tenants);
  }

  lemma {:induction false} SameDirectorySameState(n: Naming, b: Book, g: GlobalsConf, ts: map<string, TenantConf>)
    requires Sound(n, b) && b.tidy && Loads(n, b.state.disk, g, ts)
    ensures g == b.state.globals && ts == b.state.tenants
    ensures StillInStep(b.inStep, DiffSafe(b.state.tenants, ts)) == b.inStep
  {
    MatchesLoads(n, b.state.disk, b.state.globals, b.state.tenants);
    SameIsSafe(b, ts);
  }

  /** Nothing changes: those in step show a state, which is therefore compatible. */
  lemma {:induction false} SameIsSafe(b: Book, ts: map<string, TenantConf>)
    requires ts == b.state.tenants && AllMirror(b.state.subs, b.inStep, b.state.globals, b.state.tenants)
    ensures StillInStep(b.inStep, DiffSafe(b.state.tenants, ts)) == b.inStep
  {
    if id :| id in b.inStep {
      MirroredIsCompatible(b.state.subs[id], b.state.globals, b.state.tenants);
    }
  }

  lemma {:induction false} AdoptKeepsLower(
    n: Naming, b: Book, d: Disk, g: GlobalsConf, ts: map<string, TenantConf>, evs: seq<Event>)
    requires LowerOk(b)
    ensures LowerOk(Adopted(n, b, d, g, ts, evs))
  {
    if b.lower && AllLower(ts) {
      LowerIsSafe(b.state.tenants, ts);
    }
    SendKeepsLower(b, Adopted(n, b, d, g, ts, evs), evs);
  }

  lemma {:induction false} AdoptKeepsSound(
    n: Naming, b: Book, d: Disk, g: GlobalsConf, ts: map<string, TenantConf>, evs: seq<Event>)
    requires Sound(n, b) == true && !b.stuck && Loads(n, d, g, ts)
    requires DiffSafe(b.state.tenants, ts) ==> Carries(evs, b.state.globals, b.state.tenants, g, ts)
    ensures Sound(n, Adopted(n, b, d, g, ts, evs)) == true
  {
    EditsGrow(n, b.boot, b.edits, d);
    SendKeepsNumbers(b, Adopted(n, b, d, g, ts, evs), evs, DiffSafe(b.state.tenants, ts));
    AdoptKeepsLower(n, b, d, g, ts, evs);
    AdoptKeepsGood(n, b.state, b.inStep, b.tidy, d, g, ts, evs);
  }

  lemma {:induction false} SubscribeKeepsSound(n: Naming, b: Book, infos: seq<TenantInfo>)
    requires Sound(n, b) == true && Lists(infos, b.state.tenants, b.version)
    ensures Sound(n, Subscribed(b, [Snapshot(infos, b.state.globals, b.version)])) == true
    ensures Opens([Snapshot(infos, b.state.globals, b.version)], b.state.globals, b.state.tenants, b.version)
  {
    if b.lower {
      LowerIsSafe(b.state.tenants, b.state.tenants);
    }
    SubscribeKeepsGood(n, b.state, b.inStep, b.tidy, b.nextSub, infos, b.version);
  }

  lemma {:induction false} LeaveKeepsSound(n: Naming, b: Book, subs: map<nat, seq<Event>>, closed: bool)
    requires Sound(n, b) == true && forall id | id in subs :: id in b.state.subs && subs[id] == b.state.subs[id]
    ensures Sound(n, Left(b, subs, closed)) == true
  {}

  lemma {:induction false} ReadIsKeyed(n: Naming, d: Disk, names: set<string>, ts: map<string, TenantConf>)
    requires ReadsAs(n, d, names, ts)
    ensures Keyed(ts)
  {
    forall h | h in ts
      ensures ts[h].host == h
    {
      var name :| Source(n, d, name, h, ts[h]) && LastOf(n, d, names, name, h);
    }
  }

  /** A hub that has just read its directory, whole or in part. */
  lemma {:induction false} BootIsGood(d: Disk, ok: bool, g: GlobalsConf, ts: map<string, TenantConf>)
    requires if LoadableGlobals(d.globals) then ReadsAs(NAMING, d, d.tenants.Keys, ts) else ts == map[]
    requires ok ==> Loads(NAMING, d, g, ts)
    ensures Good(NAMING, State(g, ts, d, map[]), {}, ok && TidyFiles(NAMING, d))
  {
    NamingIsWellNamed();
    if LoadableGlobals(d.globals) {
      ReadIsKeyed(NAMING, d, d.tenants.Keys, ts);
    }
    if ok && TidyFiles(NAMING, d) {
      TidyLoadMatches(NAMING, d, g, ts);
    }
  }

  /** The registry as it starts. */
  ghost function Booted(d: Disk, ok: bool, g: GlobalsConf, ts: map<string, TenantConf>): Book {
    Book(State(g, ts, d, map[]), 1, 0, false, LoadableGlobals(d.globals), false,
         {}, ok && TidyFiles(NAMING, d), AllLower(ts), d, [])
  }

  lemma {:induction false} BootIsSound(d: Disk, ok: bool, g: GlobalsConf, ts: map<string, TenantConf>)
    requires if LoadableGlobals(d.globals) then ReadsAs(NAMING, d, d.tenants.Keys, ts) else ts == map[]
    requires ok ==> Loads(NAMING, d, g, ts)
    ensures Sound(NAMING, Booted(d, ok, g, ts))
  {
    BootIsGood(d, ok, g, ts);
  }

  /** A registry has no tenant map exactly when nothing was ever loaded, and nobody waits for a lock in one that has. */
  lemma {:induction false} NoMapIff(n: Naming, b: Book)
    requires Sound(n, b)
    ensures !b.ready <==> NeverLoaded(n, b.boot, b.edits)
    ensures b.stuck ==> !b.ready
  {}

  /** While every host is in lower case all subscribers are in step. */
  lemma {:induction false} AllInStep(n: Naming, b: Book)
    requires Sound(n, b) && b.lower
    ensures b.inStep == b.state.subs.Keys
  {}

  /** What becomes of an upsert. */
  function UpsertAnswer(passes: bool, ready: bool, stuck: bool): Answer {
    if !passes then Refused else if stuck then Blocked else if ready then Done else Panicked
  }

  ghost function UpsertLeaves(n: Naming, b: Book, t: TenantConf, answer: Answer): Book {
    match answer
    case Refused => b
    case Done => Upserted(n, b, t)
    case Panicked => Stuck(n, b, t)
    case Blocked => Touched(b, WriteTenant(n, b.state.disk, t))
  }

  /** One more event, which describes the tenant at this version. */
  ghost predicate TellsOf(before: seq<Event>, after: seq<Event>, t: TenantConf, version: nat) {
    && |after| == |before| + 1 && after[..|before|] == before
    && after[|before|].TenantUpsert? && Describes(after[|before|].info, t, version)
  }

  /** Every subscriber is told of the tenant, and nothing else. */
  ghost predicate AllTold(before: map<nat, seq<Event>>, after: map<nat, seq<Event>>, t: TenantConf, version: nat) {
    after.Keys == before.Keys && forall id | id in before :: TellsOf(before[id], after[id], t, version)
  }

  lemma {:induction false} UpsertAnnounces(n: Naming, b: Book, t: TenantConf)
    ensures AllTold(b.state.subs, Upserted(n, b, t).state.subs, t, b.version + 1) == true
  {
    InfoDescribes(TenantInfoFrom(t, b.version + 1), t, b.version + 1);
  }

  /** What the changes do to memory, directory and version, field by field. */
  lemma {:induction false} UpsertDoes(n: Naming, b: Book, t: TenantConf)
    ensures var s, s' := b.state, Upserted(n, b, t).state;
            && s'.tenants == s.tenants[t.host := t] && s'.globals == s.globals
            && s'.disk == Disk(s.disk.globals, s.disk.tenants[n.name(t.host) := Parsed(t)])
            && Upserted(n, b, t).version == b.version + 1
  {}

  lemma {:induction false} DeleteDoes(n: Naming, b: Book, host: string)
    ensures var s, s' := b.state, Deleted(n, b, host).state;
            && s'.tenants == s.tenants - {host} && s'.globals == s.globals
            && s'.disk == Disk(s.disk.globals, s.disk.tenants - {n.name(host)})
            && Deleted(n, b, host).version == b.version + (if host in s.tenants then 1 else 0)
            && (host !in s.tenants ==> s'.subs == s.subs)
            && (forall id | id in s.subs && host in s.tenants ::
                  id in s'.subs && s'.subs[id] == s.subs[id] + [TenantDelete(host)])
  {}

  lemma {:induction false} GlobalsDo(b: Book, g: GlobalsConf)
    ensures var s, s' := b.state, GlobalsSet(b, g).state;
            && s'.tenants == s.tenants && s'.globals == g && s'.disk == Disk(Present(g), s.disk.tenants)
            && GlobalsSet(b, g).version == b.version + 1
            && (forall id | id in s.subs :: id in s'.subs && s'.subs[id] == s.subs[id] + [GlobalsUpdate(g)])
  {}

  /** Every tenant is described once, and nothing else is. */
  ghost predicate DescribesAll(infos: seq<TenantInfo>, ts: map<string, TenantConf>, version: nat) {
    && (forall i | 0 <= i < |infos| :: infos[i].host in ts && Describes(infos[i], ts[infos[i].host], version))
    && (forall h | h in ts :: exists i | 0 <= i < |infos| :: infos[i].host == h)
    && (forall i, j | 0 <= i < j < |infos| :: infos[i].host != infos[j].host)
  }

  lemma {:induction false} ListsDescribe(infos: seq<TenantInfo>, ts: map<string, TenantConf>, version: nat)
    requires Lists(infos, ts, version)
    ensures DescribesAll(infos, ts, version)
  {
    forall i | 0 <= i < |infos|
      ensures infos[i].host in ts && Describes(infos[i], ts[infos[i].host], version)
    {
      InfoDescribes(infos[i], ts[infos[i].host], version);
    }
  }

  lemma {:induction false} UpsertCallKeepsSound(n: Naming, b: Book, t: TenantConf, passes: bool)
    requires Sound(n, b) == true
    ensures Sound(n, UpsertLeaves(n, b, t, UpsertAnswer(passes, b.ready, b.stuck))) == true
  {
    match UpsertAnswer(passes, b.ready, b.stuck)
    case Refused =>
    case Done => UpsertKeepsSound(n, b, t);
    case Panicked => PanicKeepsSound(n, b, t);
    case Blocked => TouchKeepsSound(n, b, WriteTenant(n, b.state.disk, t));
  }

  lemma {:induction false} EnumeratesMore(
    infos: seq<TenantInfo>, ts: map<string, TenantConf>, hosts: set<string>, v: nat, h: string)
    requires Enumerates(infos, ts, hosts, v) && h in ts && h !in hosts && ts[h].host == h
    ensures Enumerates(infos + [TenantInfoFrom(ts[h], v)], ts, hosts + {h}, v)
  {
    var more := infos + [TenantInfoFrom(ts[h], v)];
    forall k | k in hosts + {h}
      ensures exists i | 0 <= i < |more| :: more[i].host == k
    {
      if k == h {
        assert more[|infos|].host == h;
      } else {
        var i :| 0 <= i < |infos| && infos[i].host == k;
        assert more[i].host == k;
      }
    }
  }

  lemma {:induction false} ListsMore(
    infos: seq<TenantInfo>, ts: map<string, TenantConf>, hosts: set<string>, v: nat, h: string)
    requires Enumerates(infos, ts, hosts, v) && ByHost(infos) && h in ts && ts[h].host == h
    requires h !in hosts && forall k | k in hosts :: StrBelow(k, h)
    ensures Enumerates(infos + [TenantInfoFrom(ts[h], v)], ts, hosts + {h}, v)
    ensures ByHost(infos + [TenantInfoFrom(ts[h], v)])
  {
    EnumeratesMore(infos, ts, hosts, v, h);
  }

  method InfosOf(ts: map<string, TenantConf>, version: nat) returns (infos: seq<TenantInfo>)
    requires Keyed(ts)
    ensures Lists(infos, ts, version)
  {
    infos := [];
    var order := SortedKeys(ts.Keys);
    ghost var done: set<string> := {};
    for i := 0 to |order|
      invariant done == Elements(order[..i]) && Enumerates(infos, ts, done, version) && ByHost(infos)
    {
      NextElement(order, i);
      ListsMore(infos, ts, done, version, order[i]);
      done := done + {order[i]};
      infos := infos + [TenantInfoFrom(ts[order[i]], version)];
    }
    assert order[..|order|] == order;
  }

  class Registry {
    const naming: Naming
    var globals: GlobalsConf
    var tenants: map<string, TenantConf>
    var version: nat
    var disk: Disk
    var subs: map<nat, seq<Event>>
    var nextSub: nat
    var closed: bool
    /** The tenant map is not nil. */
    var ready: bool
    /** A call panicked between Lock and Unlock. */
    var stuck: bool
    /** The subscribers for whom every change since their snapshot was safe. */
    ghost var inStep: set<nat>
    /** The directory holds exactly the tenants in memory, each in its own file. */
    ghost var tidy: bool
    /** No tenant was ever called other than in lower case. */
    ghost var lower: bool
    /** The directory at the start, and as each run of the watcher since has found it. */
    ghost const boot: Disk
    ghost var edits: seq<Disk>

    ghost function View(): Book
      reads this
    {
      Book(State(globals, tenants, disk, subs), version, nextSub, closed, ready, stuck,
           inStep, tidy, lower, boot, edits)
    }

    /**
      The stream of every subscriber in step leaves every edge showing the
      current state, and a tidy data directory loads as that state. Which
      operations keep them so is in the contracts: hosts that differ only in
      case disturb the first, hosts with one file name the second.
     */
    ghost predicate Valid()
      reads this
    {
      // compared with true so that the verifier takes Sound as a whole
      Sound(naming, View()) == true
    }

    /**
      A registry over an existing directory. What parses is kept, but globals
      that cannot be read leave it without a tenant map.
     */
    constructor (d: Disk)
      ensures Valid() && naming == NAMING && boot == disk == d && edits == [] && subs == map[] && version == 1
      ensures !closed && !stuck && ready == LoadableGlobals(d.globals)
      ensures ready ==> globals == LoadedGlobals(d.globals) && ReadsAs(NAMING, d, d.tenants.Keys, tenants)
      ensures !ready ==> globals == NO_GLOBALS && tenants == map[]
      ensures tidy == (Loadable(NAMING, d) && TidyFiles(NAMING, d)) && lower == AllLower(tenants)
    {
      var ok, g, ts := LoadAll(NAMING, d);
      BootIsSound(d, ok, g, ts);
      naming := NAMING;
      globals, tenants, version := g, ts, 1;
      disk := d;
      subs, nextSub, closed, stuck := map[], 0, false, false;
      ready := LoadableGlobals(d.globals);
      inStep, tidy, lower := {}, ok && TidyFiles(NAMING, d), AllLower(ts);
      boot, edits := d, [];
      new;
      assert View() == Booted(d, ok, g, ts);
    }

    /** The fields that an operation changes: disk and memory, then what each subscriber is sent. */
    method Commit(s: State, version': nat, ready': bool, stuck': bool, ghost b: Book)
      requires b == Book(s, version', nextSub, closed, ready', stuck', b.inStep, b.tidy, b.lower, boot, b.edits)
      modifies this
      ensures View() == b
    {
      disk, globals, tenants, version := s.disk, s.globals, s.tenants, version';
      ready, stuck, subs := ready', stuck', s.subs;
      inStep, tidy, lower, edits := b.inStep, b.tidy, b.lower, b.edits;
    }

    /** The disk write went through, and then the lock cannot be had. */
    method Touch(d: Disk)
      requires Valid()
      modifies this
      ensures Valid() && View() == Touched(old(View()), d)
    {
      TouchKeepsSound(naming, View(), d);
      disk, tidy := d, false;
    }

    /**
      proceed: the context is live and the disk write succeeds. Past these
      checks the call comes to no good end exactly when nothing was ever loaded.
     */
    method UpsertTenant(t: TenantConf, proceed: bool) returns (answer: Answer)
      requires Valid()
      modifies this
      ensures Valid() && answer == UpsertAnswer(proceed && t.host != "", old(ready), old(stuck))
      ensures answer.Panicked? || answer.Blocked? <==> proceed && t.host != "" && NeverLoaded(naming, boot, old(edits))
      ensures answer.Refused? <==> !proceed || t.host == ""
      ensures (answer.Panicked? ==> !old(stuck)) && (answer.Blocked? ==> old(stuck))
      ensures View() == UpsertLeaves(naming, old(View()), t, answer)
      ensures answer.Done? ==> AllTold(old(subs), View().state.subs, t, old(version) + 1) == true
    {
      answer := UpsertAnswer(proceed && t.host != "", ready, stuck);
      NoMapIff(naming, View());
      UpsertAnnounces(naming, View(), t);
      match answer
      case Refused =>
      case Done => Store(t);
      case Panicked => Panic(t);
      case Blocked => Touch(WriteTenant(naming, disk, t));
    }

    /** The write went through and the map is there. */
    method Store(t: TenantConf)
      requires Valid() && ready
      modifies this
      ensures Valid() && View() == Upserted(naming, old(View()), t)
    {
      ghost var b := Upserted(naming, View(), t);
      UpsertKeepsSound(naming, View(), t);
      Commit(AfterUpsert(naming, State(globals, tenants, disk, subs), t, version + 1), version + 1, ready, stuck, b);
    }

    /** The write went through and the map is not there. */
    method Panic(t: TenantConf)
      requires Valid() && !ready
      modifies this
      ensures Valid() && View() == Stuck(naming, old(View()), t)
    {
      PanicKeepsSound(naming, View(), t);
      disk, tidy, stuck := WriteTenant(naming, disk, t), false, true;
    }

    method DeleteTenant(host: string, proceed: bool) returns (answer: Answer)
      requires Valid()
      modifies this
      ensures Valid()
      ensures answer == if !proceed || host == "" then Refused else if old(stuck) then Blocked else Done
      ensures View() == match answer
                        case Done => Deleted(naming, old(View()), host)
                        case Blocked => Touched(old(View()), DeleteTenantFile(naming, old(disk), host))
                        case _ => old(View())
    {
      if !proceed || host == "" {
        answer := Refused;
      } else if stuck {
        answer := Blocked;
        Touch(DeleteTenantFile(naming, disk, host));
      } else {
        answer := Done;
        ghost var b := Deleted(naming, View(), host);
        DeleteKeepsSound(naming, View(), host);
        Commit(AfterDelete(naming, State(globals, tenants, disk, subs), host),
               if host in tenants then version + 1 else version, ready, stuck, b);
      }
    }

    method SetGlobals(g: GlobalsConf, proceed: bool) returns (answer: Answer)
      requires Valid()
      modifies this
      ensures Valid()
      ensures answer == if !proceed then Refused else if old(stuck) then Blocked else Done
      ensures View() == match answer
                        case Done => GlobalsSet(old(View()), g)
                        case Blocked => Touched(old(View()), WriteGlobals(old(disk), g))
                        case _ => old(View())
    {
      if !proceed {
        answer := Refused;
      } else if stuck {
        answer := Blocked;
        Touch(WriteGlobals(disk, g));
      } else {
        answer := Done;
        ghost var b := GlobalsSet(View(), g);
        GlobalsKeepSound(naming, View(), g);
        Commit(AfterGlobals(State(globals, tenants, disk, subs), g), version + 1, ready, stuck, b);
      }
    }

    /**
      A new subscriber's stream opens with a snapshot of the whole current
      state, and it is in step exactly when that state is compatible. A closed
      registry takes no more subscribers.
     */
    method Subscribe() returns (answer: Answer, id: nat)
      requires Valid()
      modifies this
      ensures Valid() && id == old(nextSub)
      ensures answer == if old(stuck) then Blocked else if old(closed) then Refused else Done
      ensures !answer.Done? ==> View() == old(View())
      ensures answer.Done? ==>
                && id in subs && View() == Subscribed(old(View()), subs[id])
                && Opens(subs[id], globals, tenants, version)
                && DescribesAll(subs[id][0].tenants, tenants, version)
    {
      answer, id := if stuck then Blocked else if closed then Refused else Done, nextSub;
      if answer.Done? {
        var infos := SnapshotInfos();
        SubscribeKeepsSound(naming, View(), infos);
        nextSub := nextSub + 1;
        subs := subs[id := [Snapshot(infos, globals, version)]];
        inStep := WithNewcomer(inStep, id, tenants);
      }
    }

    method SnapshotInfos() returns (infos: seq<TenantInfo>)
      requires Valid()
      ensures Lists(infos, tenants, version) && DescribesAll(infos, tenants, version)
    {
      infos := InfosOf(tenants, version);
      ListsDescribe(infos, tenants, version);
    }

    method Unsubscribe(id: nat) returns (answer: Answer)
      requires Valid()
      modifies this
      ensures Valid() && answer == if old(stuck) then Blocked else Done
      ensures View() == if old(stuck) then old(View()) else Left(old(View()), old(subs) - {id}, old(closed))
    {
      answer := if stuck then Blocked else Done;
      if !stuck {
        LeaveKeepsSound(naming, View(), subs - {id}, closed);
        inStep := inStep * (subs - {id}).Keys;
        subs := subs - {id};
      }
    }

    method Close() returns (answer: Answer)
      requires Valid()
      modifies this
      ensures Valid() && answer == if old(stuck) then Blocked else Done
      ensures View() == if old(stuck) then old(View()) else Left(old(View()), map[], true)
    {
      answer := if stuck then Blocked else Done;
      if !stuck {
        LeaveKeepsSound(naming, View(), map[], true);
        inStep := inStep * {};
        subs, closed := map[], true;
      }
    }

    /**
      Someone else has left the data directory as d, and the watcher fires. A
      directory that does not load changes nothing in memory. One that does is
      adopted, and every subscriber is sent exactly the difference. A stuck
      registry cannot even be read.
     */
    method OnExternalChange(d: Disk) returns (answer: Answer, evs: seq<Event>)
      requires Valid()
      modifies this
      ensures Valid()
      ensures answer == if old(stuck) then Blocked else if Loadable(naming, d) then Done else Refused
      ensures answer.Blocked? ==> View() == Touched(old(View()), d)
      ensures answer.Refused? ==> View() == Rejected(old(View()), d)
      ensures answer.Done? ==> Loads(naming, d, globals, tenants) && InOrder(evs)
      ensures answer.Done? ==> View() == Adopted(naming, old(View()), d, globals, tenants, evs)
      ensures answer.Done? ==> (evs == [] <==> globals == old(globals) && tenants == old(tenants))
    {
      if stuck {
        answer, evs := Blocked, [];
        Touch(d);
      } else {
        var ok;
        ok, evs := Reload(d);
        answer := if ok then Done else Refused;
      }
    }

    /** The same when the lock can be had. */
    method Reload(d: Disk) returns (ok: bool, evs: seq<Event>)
      requires Valid() && !stuck
      modifies this
      ensures Valid() && ok == Loadable(naming, d)
      ensures !ok ==> View() == Rejected(old(View()), d)
      ensures ok ==> Loads(naming, d, globals, tenants) && InOrder(evs)
      ensures ok ==> View() == Adopted(naming, old(View()), d, globals, tenants, evs)
      ensures ok ==> (evs == [] <==> globals == old(globals) && tenants == old(tenants))
    {
      var g, ts;
      ok, g, ts, evs := PlanReload(d);
      if ok {
        ghost var b := Adopted(naming, View(), d, g, ts, evs);
        Commit(State(g, ts, d, SendAll(subs, evs)), version + 1, true, stuck, b);
      } else {
        Commit(State(globals, tenants, d, subs), version, ready, stuck, Rejected(View(), d));
      }
    }

    /** Load the directory and work out the difference. */
    method PlanReload(d: Disk)
      returns (ok: bool, g: GlobalsConf, ts: map<string, TenantConf>, evs: seq<Event>)
      requires Valid() && !stuck
      ensures ok == Loadable(naming, d)
      ensures ok ==> Loads(naming, d, g, ts) == true && Sound(naming, Adopted(naming, View(), d, g, ts, evs)) == true
      ensures ok ==> (evs == [] <==> g == globals && ts == tenants) && InOrder(evs)
      ensures !ok ==> Sound(naming, Rejected(View(), d)) == true
    {
      ok, g, ts := LoadAll(naming, d);
      evs := [];
      if ok {
        ReadIsKeyed(naming, d, d.tenants.Keys, ts);
        evs := DiffEvents(globals, tenants, g, ts, version + 1);
        AdoptKeepsSound(naming, View(), d, g, ts, evs);
      } else {
        RejectKeepsSound(naming, View(), d);
      }
    }

    /** The watcher also fires on the hub's own writes; reloading those emits nothing and changes nothing. */
    method ReloadOwnWrite() returns (answer: Answer)
      requires Valid() && tidy
      modifies this
      ensures Valid() && answer.Done? && tidy
      ensures globals == old(globals) && tenants == old(tenants) && subs == old(subs) && inStep == old(inStep)
    {
      ghost var b := View();
      var evs;
      OwnDirectoryLoads(naming, b);
      answer, evs := OnExternalChange(disk);
      SameDirectorySameState(naming, b, globals, tenants);
      SendNothing(b.state.subs);
    }
  }

  /** With broken globals the first upsert panics and the second never returns, and both have written their files. */
  method BrokenBootPanics(d: Disk, t: TenantConf, u: TenantConf) returns (first: Answer, second: Answer, left: Disk)
    requires !LoadableGlobals(d.globals) && t.host != "" && u.host != ""
    ensures first == Panicked && second == Blocked
    ensures left == WriteTenant(NAMING, WriteTenant(NAMING, d, t), u)
  {
    var hub := new Registry(d);
    first := hub.UpsertTenant(t, true);
    second := hub.UpsertTenant(u, true);
    left := hub.disk;
  }
}
