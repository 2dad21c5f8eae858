/**
  The static cache of internal/feature/staticcache/staticcache.go. Requests run
  concurrently: each step below is one access to the shared cache or to the
  single-flight group. A lookup may return nothing or any entry that was ever
  stored under its key in that cache, which covers eviction, expiry, refused
  admission and delayed writes.
 */
module StaticCache {
  import opened Text
  import opened Canonical
  import opened Headers

  const MAX_BODY: nat := 5 * 1024 * 1024

  datatype Raw = Raw(status: int, header: Fieldset, body: seq<int>)

  // ------------------------------------------------------------------
  // What may be cached.

  /** filepath.Ext: from the last dot of the last path element. */
  function ExtFrom(path: string, i: nat): string
    requires i <= |path|
  {
    if i == 0 || path[i - 1] == '/' then ""
    else if path[i - 1] == '.' then path[i - 1..]
    else ExtFrom(path, i - 1)
  }

  function Extension(path: string): string {
    var e := ExtFrom(path, |path|);
    LowerAll(if "." <= e then e[1..] else e)
  }

  predicate HasAllowedExtension(path: string, exts: set<string>) {
    Extension(path) != "" && Extension(path) in exts
  }

  predicate CacheableRequest(r: Request, exts: set<string>) {
    (r.verb == "GET" || r.verb == "HEAD") && r.authorization == "" && r.cookie == "" &&
      HasAllowedExtension(r.path, exts)
  }

  predicate Contains(s: string, sub: string) {
    exists i | 0 <= i <= |s| :: sub <= s[i..]
  }

  const BLOCKERS := ["private", "no-store", "no-cache", "must-revalidate", "s-maxage=0", "max-age=0"]

  predicate CacheControlAllowsStorage(cc: string) {
    forall b | b in BLOCKERS :: !Contains(LowerAll(cc), b)
  }

  predicate VaryBlocksCache(values: seq<string>) {
    exists v | v in values :: exists part | part in Split(v, ',') :: TrimSpace(part) == "*"
  }

  predicate IsNumeral(s: string) { s != "" && forall i | 0 <= i < |s| :: '0' <= s[i] <= '9' }

  function ValueOf(s: string): nat
    requires forall i | 0 <= i < |s| :: '0' <= s[i] <= '9'
  {
    if s == "" then 0 else 10 * ValueOf(s[..|s| - 1]) + (s[|s| - 1] - '0') as nat
  }

  /** strconv.Atoi reads n; numerals out of range fail there and name no body length here. */
  predicate Reads(s: string, n: nat) {
    var digits := if s != "" && (s[0] == '+' || s[0] == '-') then s[1..] else s;
    IsNumeral(digits) && if s[0] == '-' then ValueOf(digits) == 0 == n else ValueOf(digits) == n
  }

  /** contentTypeByExt; none for an extension that is not listed. */
  function ContentTypes(ext: string): seq<string> {
    match ext
    case "js" => ["application/javascript", "text/javascript", "application/x-javascript"]
    case "css" => ["text/css"]
    case "png" => ["image/png"]
    case "jpg" => ["image/jpeg"]
    case "jpeg" => ["image/jpeg"]
    case "svg" => ["image/svg+xml", "text/xml", "application/xml"]
    case "webp" => ["image/webp"]
    case "woff" => ["font/woff", "application/font-woff"]
    case "woff2" => ["font/woff2", "application/font-woff2"]
    case "gif" => ["image/gif"]
    case "ico" => ["image/x-icon", "image/vnd.microsoft.icon"]
    case _ => []
  }

  predicate TypeFits(path: string, ct: string) {
    ct == ""
    || (&& !("text/html" <= LowerAll(ct))
        && (ContentTypes(Extension(path)) != [] ==>
              exists a | a in ContentTypes(Extension(path)) :: a <= LowerAll(ct)))
  }

  /** cacheableResponse, given the request it answers. */
  predicate CacheableResponse(r: Request, raw: Raw) {
    && r.authorization == ""
    && 200 <= raw.status < 300
    && 0 < |raw.body| <= MAX_BODY
    && AllOf(raw.header, "Set-Cookie") == []
    && CacheControlAllowsStorage(First(raw.header, "Cache-Control"))
    && !VaryBlocksCache(AllOf(raw.header, "Vary"))
    && Reads(First(raw.header, "Content-Length"), |raw.body|)
    && TypeFits(r.path, First(raw.header, "Content-Type"))
  }

  // ------------------------------------------------------------------
  // The middleware, with keys and answers left to the environment.

  /** A stored or shared response; its header is already stripped. */
  datatype Entry = Entry(status: int, header: Fieldset, body: seq<int>)

  datatype World = World(
    key: Request -> string,
    answer: Request -> Raw,
    wellFormed: Request -> bool,
    cacheable: Request -> bool,
    storable: (Request, Raw) -> bool,
    strip: Fieldset -> Fieldset)

  /** What the cache keeps of the upstream's answer to r. */
  function Captured(w: World, r: Request): Entry {
    var raw := w.answer(r);
    Entry(raw.status, w.strip(raw.header), raw.body)
  }

  datatype Outcome = TooBig | Shared(entry: Entry)

  function Fetched(w: World, r: Request): Outcome {
    if |w.answer(r).body| > MAX_BODY then TooBig else Shared(Captured(w, r))
  }

  datatype Reply = Direct(raw: Raw) | Replayed(entry: Entry, tag: string)

  /** Where a request is: slots are numbered as caches are built, flights as they start. */
  datatype Phase =
    | Arrived
    | Holding(slot: nat)
    | Missed(slot: nat)
    | Owning(slot: nat, flight: nat)
    | Landing(flight: nat, outcome: Outcome)
    | Waiting(flight: nat)
    | Served(reply: Reply)

  datatype Client = Client(request: Request, phase: Phase)

  datatype Progress = Flying | Landed(outcome: Outcome)

  datatype Flight = Flight(key: string, owner: nat, progress: Progress)

  datatype Current = NoCache | Slot(slot: nat)

  datatype State = State(
    current: Current,
    slots: seq<set<(string, Entry)>>,
    flights: seq<Flight>,
    active: map<string, nat>,
    clients: seq<Client>)

  const INITIAL := State(NoCache, [], [], map[], [])

  datatype Step =
    | Arrive(r: Request)
    | Drop                      // a reload or Close discards the current cache
    | Rebuild                   // a reload builds an empty one
    | Bypass(i: nat)            // switched off, or not a cacheable request, or no cache
    | Take(i: nat)              // load the current cache
    | Hit(i: nat, entry: Entry)
    | Miss(i: nat)
    | Join(i: nat)              // enter the single-flight group
    | HitAgain(i: nat, entry: Entry)
    | Fetch(i: nat)             // call upstream, store what may be stored
    | Land(i: nat)              // publish the outcome, leave the group
    | Collect(i: nat)           // read the flight's outcome

  function Enter(s: State, i: nat, phase: Phase): State
    requires i < |s.clients|
  {
    s.(clients := s.clients[i := s.clients[i].(phase := phase)])
  }

  predicate InSlot(s: State, slot: nat, key: string, e: Entry) {
    slot < |s.slots| && (key, e) in s.slots[slot]
  }

  predicate Enabled(w: World, s: State, step: Step) {
    match step
    case Arrive(r) => w.wellFormed(r)
    case Drop => true
    case Rebuild => true
    case Bypass(i) => i < |s.clients| && s.clients[i].phase.Arrived?
    case Take(i) => i < |s.clients| && s.clients[i].phase.Arrived? && w.cacheable(s.clients[i].request) &&
      s.current.Slot?
    case Hit(i, e) =>
      i < |s.clients| && s.clients[i].phase.Holding?
      && InSlot(s, s.clients[i].phase.slot, w.key(s.clients[i].request), e)
    case Miss(i) => i < |s.clients| && s.clients[i].phase.Holding?
    case Join(i) => i < |s.clients| && s.clients[i].phase.Missed?
    case HitAgain(i, e) =>
      i < |s.clients| && s.clients[i].phase.Owning?
      && InSlot(s, s.clients[i].phase.slot, w.key(s.clients[i].request), e)
    case Fetch(i) =>
      i < |s.clients| && s.clients[i].phase.Owning? && s.clients[i].phase.slot < |s.slots|
    case Land(i) =>
      i < |s.clients| && s.clients[i].phase.Landing? && s.clients[i].phase.flight < |s.flights|
    case Collect(i) =>
      i < |s.clients| && s.clients[i].phase.Waiting? && s.clients[i].phase.flight < |s.flights|
      && s.flights[s.clients[i].phase.flight].progress.Landed?
  }

  function Apply(w: World, s: State, step: Step): State
    requires Enabled(w, s, step)
  {
    match step
    case Arrive(r) => s.(clients := s.clients + [Client(r, Arrived)])
    case Drop => s.(current := NoCache)
    case Rebuild => s.(current := Slot(|s.slots|), slots := s.slots + [{}])
    case Bypass(i) => Enter(s, i, Served(Direct(w.answer(s.clients[i].request))))
    case Take(i) => Enter(s, i, Holding(s.current.slot))
    case Hit(i, e) => Enter(s, i, Served(Replayed(e, "HIT")))
    case Miss(i) => Enter(s, i, Missed(s.clients[i].phase.slot))
    case Join(i) => Joined(w, s, i)
    case HitAgain(i, e) => Enter(s, i, Landing(s.clients[i].phase.flight, Shared(e)))
    case Fetch(i) => Enter(Stored(w, s, i), i, Landing(s.clients[i].phase.flight, Fetched(w, s.clients[i].request)))
    case Land(i) => Published(w, s, i)
    case Collect(i) => Enter(s, i, Served(Answered(w, s, i)))
  }

  /** A body over 5 MiB is neither shared nor stored; any other answer is shared, and stored if it may be. */
  lemma {:induction false} FetchDoes(w: World, s: State, i: nat)
    requires Enabled(w, s, Fetch(i))
    ensures var c, s' := s.clients[i], Apply(w, s, Fetch(i));
            var raw := w.answer(c.request);
            var e := Entry(raw.status, w.strip(raw.header), raw.body);
            && i < |s'.clients| && s'.clients[i].phase.Landing?
            && s'.clients[i].phase.outcome == (if |raw.body| > 5242880 then TooBig else Shared(e))
            && (InSlot(s', c.phase.slot, w.key(c.request), e) <==>
                  || InSlot(s, c.phase.slot, w.key(c.request), e)
                  || (|raw.body| <= 5242880 && w.storable(c.request, raw)))
  {}

  /** Follow the flight for the key if there is one, else start one. */
  function Joined(w: World, s: State, i: nat): State
    requires i < |s.clients| && s.clients[i].phase.Missed?
  {
    var k := w.key(s.clients[i].request);
    if k in s.active then Enter(s, i, Waiting(s.active[k]))
    else
      Enter(s.(flights := s.flights + [Flight(k, i, Flying)], active := s.active[k := |s.flights|]),
            i, Owning(s.clients[i].phase.slot, |s.flights|))
  }

  /** The owner's write into the cache it loaded, which may no longer be the current one. */
  function Stored(w: World, s: State, i: nat): State
    requires i < |s.clients| && s.clients[i].phase.Owning? && s.clients[i].phase.slot < |s.slots|
  {
    var r, slot := s.clients[i].request, s.clients[i].phase.slot;
    if |w.answer(r).body| <= MAX_BODY && w.storable(r, w.answer(r)) then
      s.(slots := s.slots[slot := s.slots[slot] + {(w.key(r), Captured(w, r))}])
    else s
  }

  function Published(w: World, s: State, i: nat): State
    requires i < |s.clients| && s.clients[i].phase.Landing? && s.clients[i].phase.flight < |s.flights|
  {
    var r, fl := s.clients[i].request, s.clients[i].phase.flight;
    Enter(s.(flights := s.flights[fl := s.flights[fl].(progress := Landed(s.clients[i].phase.outcome))],
             active := s.active - {w.key(r)}),
          i, Waiting(fl))
  }

  /** A shared response is replayed; one too big to share is fetched anew by each request. */
  function Answered(w: World, s: State, i: nat): Reply
    requires Enabled(w, s, Collect(i))
  {
    match s.flights[s.clients[i].phase.flight].progress.outcome
    case TooBig => Direct(w.answer(s.clients[i].request))
    case Shared(e) => Replayed(e, "MISS")
  }

  // ------------------------------------------------------------------
  // What every step keeps.

  /** e is what some cacheable request with this key fetched, and it was fit to store. */
  ghost predicate Earned(w: World, key: string, e: Entry) {
    exists r :: Fetches(w, key, r) && w.storable(r, w.answer(r)) && e == Captured(w, r)
  }

  /** r may be the request whose answer is shared under this key. */
  ghost predicate Fetches(w: World, key: string, r: Request) {
    w.key(r) == key && w.wellFormed(r) && w.cacheable(r) && |w.answer(r).body| <= MAX_BODY
  }

  /** The outcome is what some request with this key got from upstream. */
  ghost predicate Genuine(w: World, key: string, o: Outcome) {
    o.Shared? ==> exists r :: Fetches(w, key, r) && o.entry == Captured(w, r)
  }

  /** The upstream's answer to r itself, or one that r may share. */
  ghost predicate Received(w: World, r: Request, reply: Reply) {
    match reply
    case Direct(raw) => raw == w.answer(r)
    case Replayed(e, tag) => w.cacheable(r) && Genuine(w, w.key(r), Shared(e))
  }

  ghost predicate SlotsOk(w: World, slots: seq<set<(string, Entry)>>) {
    forall c, p | 0 <= c < |slots| && p in slots[c] :: Earned(w, p.0, p.1)
  }

  predicate Owns(p: Phase, flight: nat) { (p.Owning? || p.Landing?) && p.flight == flight }

  ghost predicate FlightOk(w: World, s: State, f: nat)
    requires f < |s.flights|
  {
    var x := s.flights[f];
    match x.progress
    case Flying =>
      && x.key in s.active && s.active[x.key] == f
      && x.owner < |s.clients| && Owns(s.clients[x.owner].phase, f)
    case Landed(o) => Genuine(w, x.key, o)
  }

  ghost predicate ActiveOk(s: State, k: string)
    requires k in s.active
  {
    s.active[k] < |s.flights| && s.flights[s.active[k]].key == k && s.flights[s.active[k]].progress.Flying?
  }

  ghost predicate OwnedBy(w: World, s: State, i: nat, flight: nat)
    requires i < |s.clients|
  {
    flight < |s.flights| && s.flights[flight] == Flight(w.key(s.clients[i].request), i, Flying)
  }

  ghost predicate ClientOk(w: World, s: State, i: nat)
    requires i < |s.clients|
  {
    var r, p := s.clients[i].request, s.clients[i].phase;
    w.wellFormed(r) &&
    match p
    case Arrived => true
    case Holding(slot) => slot < |s.slots| && w.cacheable(r)
    case Missed(slot) => slot < |s.slots| && w.cacheable(r)
    case Owning(slot, f) => slot < |s.slots| && w.cacheable(r) && OwnedBy(w, s, i, f)
    case Landing(f, o) => w.cacheable(r) && OwnedBy(w, s, i, f) && Genuine(w, w.key(r), o)
    case Waiting(f) => f < |s.flights| && w.cacheable(r) && s.flights[f].key == w.key(r)
    case Served(reply) => Received(w, r, reply)
  }

  ghost predicate Inv(w: World, s: State) {
    && SlotsOk(w, s.slots)
    && (s.current.Slot? ==> s.current.slot < |s.slots|)
    && (forall f | 0 <= f < |s.flights| :: FlightOk(w, s, f))
    && (forall k | k in s.active :: ActiveOk(s, k))
    && (forall i | 0 <= i < |s.clients| :: ClientOk(w, s, i))
  }

  /** A client that owns nothing may change phase without disturbing anyone else. */
  lemma {:induction false} EnterKeepsInv(w: World, s: State, i: nat, phase: Phase)
    requires Inv(w, s) && i < |s.clients|
    requires forall f: nat :: Owns(s.clients[i].phase, f) ==> Owns(phase, f)
    requires ClientOk(w, Enter(s, i, phase), i)
    ensures Inv(w, Enter(s, i, phase))
  {
    var t := Enter(s, i, phase);
    forall f | 0 <= f < |t.flights| ensures FlightOk(w, t, f) {
      assert FlightOk(w, s, f);
    }
    forall k | k in t.active ensures ActiveOk(t, k) {
      assert ActiveOk(s, k);
    }
    forall j | 0 <= j < |t.clients| ensures ClientOk(w, t, j) {
      assert ClientOk(w, s, j);
    }
  }

  lemma {:induction false} StoredKeepsInv(w: World, s: State, i: nat)
    requires Inv(w, s) && i < |s.clients| && s.clients[i].phase.Owning?
    ensures s.clients[i].phase.slot < |s.slots| && Inv(w, Stored(w, s, i))
  {
    assert ClientOk(w, s, i);
    var t := Stored(w, s, i);
    var r := s.clients[i].request;
    assert |w.answer(r).body| <= MAX_BODY && w.storable(r, w.answer(r)) ==>
        Fetches(w, w.key(r), r) && Earned(w, w.key(r), Captured(w, r));
    forall f | 0 <= f < |t.flights| ensures FlightOk(w, t, f) {
      assert FlightOk(w, s, f);
    }
    forall k | k in t.active ensures ActiveOk(t, k) {
      assert ActiveOk(s, k);
    }
    forall j | 0 <= j < |t.clients| ensures ClientOk(w, t, j) {
      assert ClientOk(w, s, j);
    }
  }

  /** Starting a flight: nobody else has one for this key. */
  lemma {:induction false} JoinKeepsInv(w: World, s: State, i: nat)
    requires Inv(w, s) && i < |s.clients| && s.clients[i].phase.Missed?
    ensures Inv(w, Joined(w, s, i))
  {
    assert ClientOk(w, s, i);
    var k := w.key(s.clients[i].request);
    if k in s.active {
      assert ActiveOk(s, k);
      EnterKeepsInv(w, s, i, Waiting(s.active[k]));
    } else {
      var t := Joined(w, s, i);
      forall f | 0 <= f < |t.flights| ensures FlightOk(w, t, f) {
        assert f < |s.flights| ==> FlightOk(w, s, f);
      }
      forall q | q in t.active ensures ActiveOk(t, q) {
        assert q != k ==> ActiveOk(s, q);
      }
      forall j | 0 <= j < |t.clients| ensures ClientOk(w, t, j) {
        assert ClientOk(w, s, j);
      }
    }
  }

  /** Landing: the flight's owner becomes one of its readers. */
  lemma {:induction false} LandKeepsInv(w: World, s: State, i: nat)
    requires Inv(w, s) && Enabled(w, s, Land(i))
    ensures Inv(w, Published(w, s, i))
  {
    assert ClientOk(w, s, i);
    var t := Published(w, s, i);
    var fl := s.clients[i].phase.flight;
    assert FlightOk(w, s, fl);
    forall f | 0 <= f < |t.flights| ensures FlightOk(w, t, f) {
      assert FlightOk(w, s, f);
    }
    forall k | k in t.active ensures ActiveOk(t, k) {
      assert ActiveOk(s, k);
    }
    forall j | 0 <= j < |t.clients| ensures ClientOk(w, t, j) {
      assert ClientOk(w, s, j);
    }
  }

  lemma {:induction false} ArriveKeepsInv(w: World, s: State, r: Request)
    requires Inv(w, s) && w.wellFormed(r)
    ensures Inv(w, s.(clients := s.clients + [Client(r, Arrived)]))
  {
    var t := s.(clients := s.clients + [Client(r, Arrived)]);
    forall f | 0 <= f < |t.flights| ensures FlightOk(w, t, f) {
      assert FlightOk(w, s, f);
    }
    forall k | k in t.active ensures ActiveOk(t, k) {
      assert ActiveOk(s, k);
    }
    forall j | 0 <= j < |t.clients| ensures ClientOk(w, t, j) {
      assert j < |s.clients| ==> ClientOk(w, s, j);
    }
  }

  lemma {:induction false} ReloadKeepsInv(w: World, s: State, slots: seq<set<(string, Entry)>>, current: Current)
    requires Inv(w, s) && (slots == s.slots || slots == s.slots + [{}])
    requires current.Slot? ==> current.slot < |slots|
    ensures Inv(w, s.(slots := slots, current := current))
  {
    var t := s.(slots := slots, current := current);
    forall f | 0 <= f < |t.flights| ensures FlightOk(w, t, f) {
      assert FlightOk(w, s, f);
    }
    forall k | k in t.active ensures ActiveOk(t, k) {
      assert ActiveOk(s, k);
    }
    forall j | 0 <= j < |t.clients| ensures ClientOk(w, t, j) {
      assert ClientOk(w, s, j);
    }
  }

  /** An entry found in a slot came from upstream. */
  lemma {:induction false} FoundIsGenuine(w: World, s: State, slot: nat, key: string, e: Entry)
    requires Inv(w, s) && InSlot(s, slot, key, e)
    ensures Genuine(w, key, Shared(e))
  {
    assert Earned(w, (key, e).0, (key, e).1);
  }

  lemma {:induction false} NextKeepsInv(w: World, s: State, step: Step)
    requires Inv(w, s) && Enabled(w, s, step)
    ensures Inv(w, Apply(w, s, step))
  {
    match step
    case Arrive(r) => ArriveKeepsInv(w, s, r);
    case Drop => ReloadKeepsInv(w, s, s.slots, NoCache);
    case Rebuild => ReloadKeepsInv(w, s, s.slots + [{}], Slot(|s.slots|));
    case Bypass(i) =>
      assert ClientOk(w, s, i);
      EnterKeepsInv(w, s, i, Served(Direct(w.answer(s.clients[i].request))));
    case Take(i) =>
      assert ClientOk(w, s, i);
      EnterKeepsInv(w, s, i, Holding(s.current.slot));
    case Hit(i, e) =>
      assert ClientOk(w, s, i);
      FoundIsGenuine(w, s, s.clients[i].phase.slot, w.key(s.clients[i].request), e);
      EnterKeepsInv(w, s, i, Served(Replayed(e, "HIT")));
    case Miss(i) =>
      assert ClientOk(w, s, i);
      EnterKeepsInv(w, s, i, Missed(s.clients[i].phase.slot));
    case Join(i) => JoinKeepsInv(w, s, i);
    case HitAgain(i, e) =>
      assert ClientOk(w, s, i);
      FoundIsGenuine(w, s, s.clients[i].phase.slot, w.key(s.clients[i].request), e);
      EnterKeepsInv(w, s, i, Landing(s.clients[i].phase.flight, Shared(e)));
    case Fetch(i) => FetchKeepsInv(w, s, i);
    case Land(i) => LandKeepsInv(w, s, i);
    case Collect(i) => CollectKeepsInv(w, s, i);
  }

  lemma {:induction false} FetchKeepsInv(w: World, s: State, i: nat)
    requires Inv(w, s) && Enabled(w, s, Fetch(i))
    ensures Inv(w, Apply(w, s, Fetch(i)))
  {
    assert ClientOk(w, s, i);
    StoredKeepsInv(w, s, i);
    var r := s.clients[i].request;
    var o := Fetched(w, r);
    assert o.Shared? ==> Fetches(w, w.key(r), r);
    EnterKeepsInv(w, Stored(w, s, i), i, Landing(s.clients[i].phase.flight, o));
  }

  lemma {:induction false} CollectKeepsInv(w: World, s: State, i: nat)
    requires Inv(w, s) && Enabled(w, s, Collect(i))
    ensures Inv(w, Apply(w, s, Collect(i)))
  {
    assert ClientOk(w, s, i);
    var f := s.clients[i].phase.flight;
    assert FlightOk(w, s, f);
    EnterKeepsInv(w, s, i, Served(Answered(w, s, i)));
  }

  // ------------------------------------------------------------------
  // Runs.

  /** The state after the steps in order; a step that is not enabled does nothing. */
  function After(w: World, steps: seq<Step>): State {
    if steps == [] then INITIAL
    else
      var s := After(w, steps[..|steps| - 1]);
      var step := steps[|steps| - 1];
      if Enabled(w, s, step) then Apply(w, s, step) else s
  }

  lemma {:induction false} EveryRunKeepsInv(w: World, steps: seq<Step>)
    ensures Inv(w, After(w, steps))
    decreases |steps|
  {
    if steps != [] {
      var before := steps[..|steps| - 1];
      EveryRunKeepsInv(w, before);
      if Enabled(w, After(w, before), steps[|steps| - 1]) {
        NextKeepsInv(w, After(w, before), steps[|steps| - 1]);
      }
    }
  }

  /** While a fetch for a key is under way no second request fetches it, and every waiter's flight has an owner. */
  lemma {:induction false} OneFetchPerKey(w: World, steps: seq<Step>, i: nat, j: nat)
    requires i < |After(w, steps).clients| && j < |After(w, steps).clients|
    ensures var s := After(w, steps);
            && ((s.clients[i].phase.Owning? && s.clients[j].phase.Owning?
                 && w.key(s.clients[i].request) == w.key(s.clients[j].request)) ==> i == j)
            && (s.clients[i].phase.Waiting? ==>
                  && s.clients[i].phase.flight < |s.flights|
                  && var x := s.flights[s.clients[i].phase.flight];
                     x.progress.Flying? ==>
                       x.owner < |s.clients| && Owns(s.clients[x.owner].phase, s.clients[i].phase.flight))
  {
    EveryRunKeepsInv(w, steps);
    var s := After(w, steps);
    assert ClientOk(w, s, i) && ClientOk(w, s, j);
    if s.clients[i].phase.Owning? && s.clients[j].phase.Owning? {
      assert FlightOk(w, s, s.clients[i].phase.flight) && FlightOk(w, s, s.clients[j].phase.flight);
    }
    if s.clients[i].phase.Waiting? {
      assert FlightOk(w, s, s.clients[i].phase.flight);
    }
  }

  // ------------------------------------------------------------------
  // The cache as configured: keys from Canonical, headers from Headers.

  /** Some configured list of extensions lets r be cached; reloads change the list. */
  ghost predicate CouldBeCached(r: Request) { exists exts :: CacheableRequest(r, exts) }

  /** The same tenant up to capitals, where no tenant goes by the name of _global_. */
  ghost predicate SameTenant(a: string, b: string) {
    || LowerAll(a) == LowerAll(b)
    || (a == "" && LowerAll(b) == "_global_")
    || (b == "" && LowerAll(a) == "_global_")
  }

  /** Two requests for one thing: only capitals, detours in the path and the order of parameters and codings differ. */
  ghost predicate SameResource(a: Request, b: Request) {
    && SameTenant(a.tenant, b.tenant) && a.verb == b.verb && LowerAll(a.host) == LowerAll(b.host)
    && CleanPath("/" + TrimSlashes(a.path)) == CleanPath("/" + TrimSlashes(b.path))
    && multiset(Split(a.query, '&')) == multiset(Split(b.query, '&'))
    && multiset(Accepted(a.acceptEncoding)) == multiset(Accepted(b.acceptEncoding))
  }

  /** The cache in front of an upstream. */
  ghost function Configured(hash: string -> string, origin: Request -> Raw): World {
    World(r => hash(Layout(Canon(r))), origin, r => Delivered(r),
          r => CouldBeCached(r), (r, raw) => CacheableResponse(r, raw), h => Kept(h))
  }

  /** SHA-256 taken as it is used: different bytes, different digests. */
  ghost predicate CollisionFree(hash: string -> string) {
    forall a, b | hash(a) == hash(b) :: a == b
  }

  lemma {:induction false} SameKeyIff(hash: string -> string, a: Request, b: Request)
    requires CollisionFree(hash) && Delivered(a) && Delivered(b)
    ensures hash(Layout(Canon(a))) == hash(Layout(Canon(b))) <==> Canon(a) == Canon(b)
  {
    if hash(Layout(Canon(a))) == hash(Layout(Canon(b))) {
      CanonIsUnbroken(a);
      CanonIsUnbroken(b);
      LayoutInjective(Canon(a), Canon(b));
    }
  }

  /** Two requests share a key exactly when they ask for one thing. */
  lemma {:induction false} KeyIff(hash: string -> string, a: Request, b: Request)
    requires CollisionFree(hash) && Delivered(a) && Delivered(b)
    ensures hash(Layout(Canon(a))) == hash(Layout(Canon(b))) <==> SameResource(a, b)
  {
    SameKeyIff(hash, a, b);
    SameQueryIff(a.query, b.query);
    SameEncodingIff(a.acceptEncoding, b.acceptEncoding);
    assert a.tenant != "" ==> LowerAll(a.tenant) != "";
    assert b.tenant != "" ==> LowerAll(b.tenant) != "";
  }

  /**
    Requests alike but for their tenants share a slot exactly when the tenants
    differ in capitals only, or one has none and the other is called _global_.
   */
  lemma {:induction false} TenantsShareIff(hash: string -> string, a: Request, b: Request)
    requires CollisionFree(hash) && Delivered(a) && Delivered(b) && b == a.(tenant := b.tenant)
    ensures hash(Layout(Canon(a))) == hash(Layout(Canon(b))) <==>
              || LowerAll(a.tenant) == LowerAll(b.tenant)
              || (a.tenant == "" && LowerAll(b.tenant) == GLOBAL_TENANT)
              || (b.tenant == "" && LowerAll(a.tenant) == GLOBAL_TENANT)
  {
    SameKeyIff(hash, a, b);
    assert a.tenant != "" ==> LowerAll(a.tenant) != "";
    assert b.tenant != "" ==> LowerAll(b.tenant) != "";
  }

  const X_CACHE := "X-Cache"

  /** What goes out on the wire. */
  function Sent(reply: Reply): Raw {
    match reply
    case Direct(raw) => raw
    case Replayed(e, tag) =>
      Raw(e.status, if tag == "MISS" && X_CACHE in e.header then e.header else e.header[X_CACHE := [tag]], e.body)
  }

  /** A cached response is marked HIT, a shared one MISS unless the upstream has marked it, a direct one not at all. */
  lemma {:induction false} SentMarks(e: Entry, raw: Raw)
    ensures Sent(Direct(raw)) == raw
    ensures Sent(Replayed(e, "HIT")) == Raw(e.status, e.header["X-Cache" := ["HIT"]], e.body)
    ensures Sent(Replayed(e, "MISS")) ==
              Raw(e.status, if "X-Cache" in e.header then e.header else e.header["X-Cache" := ["MISS"]], e.body)
  {}

  lemma {:induction false} HitsAndMisses(w: World, s: State, i: nat, e: Entry)
    ensures Enabled(w, s, Hit(i, e)) ==>
              var s' := Apply(w, s, Hit(i, e));
              i < |s'.clients| && s'.clients[i].phase == Served(Replayed(e, "HIT"))
    ensures Enabled(w, s, Collect(i)) ==>
              var s' := Apply(w, s, Collect(i));
              && i < |s'.clients|
              && s'.clients[i].phase.Served?
              && (s'.clients[i].phase.reply.Replayed? ==> s'.clients[i].phase.reply.tag == "MISS")
  {}

  /** The upstream's own answer, or one with its status, body and end-to-end header up to the X-Cache mark. */
  ghost predicate Faithful(reply: Reply, raw: Raw) {
    match reply
    case Direct(own) => own == raw
    case Replayed(_, _) =>
      var sent := Sent(reply);
      sent.status == raw.status && sent.body == raw.body && sent.header - {X_CACHE} == Kept(raw.header) - {X_CACHE}
  }

  ghost predicate FaithfulAfter(hash: string -> string, origin: Request -> Raw, steps: seq<Step>) {
    var s := After(Configured(hash, origin), steps);
    forall i | 0 <= i < |s.clients| && s.clients[i].phase.Served? ::
      Faithful(s.clients[i].phase.reply, origin(s.clients[i].request))
  }

  /**
    The upstream may be asked one for the other: where a is answered with 5 MiB
    or less, b gets the same status, body and end-to-end header.
   */
  ghost predicate AnsweredAlike(origin: Request -> Raw, a: Request, b: Request) {
    |origin(a).body| <= 5242880 ==>
      && origin(a).status == origin(b).status && origin(a).body == origin(b).body
      && Kept(origin(a).header) - {"X-Cache"} == Kept(origin(b).header) - {"X-Cache"}
  }

  /** It does so for any two requests for one thing that could be cached, whatever their other header fields. */
  ghost predicate Respects(origin: Request -> Raw) {
    forall a, b | Delivered(a) && Delivered(b) && CouldBeCached(a) && CouldBeCached(b) && SameResource(a, b) ::
      AnsweredAlike(origin, a, b)
  }

  lemma {:induction false} ReplayIsFaithfulIff(
    hash: string -> string, origin: Request -> Raw, a: Request, b: Request, tag: string)
    requires |origin(a).body| <= MAX_BODY
    ensures Faithful(Replayed(Captured(Configured(hash, origin), a), tag), origin(b)) <==> AnsweredAlike(origin, a, b)
  {
    var e := Captured(Configured(hash, origin), a);
    assert Sent(Replayed(e, tag)).header - {X_CACHE} == e.header - {X_CACHE};
  }

  lemma {:induction false} RespectedIsFaithful(hash: string -> string, origin: Request -> Raw, r: Request, reply: Reply)
    requires CollisionFree(hash) && Respects(origin) && Delivered(r) && Received(Configured(hash, origin), r, reply)
    ensures Faithful(reply, origin(r))
  {
    var w := Configured(hash, origin);
    if reply.Replayed? {
      var a :| Fetches(w, w.key(r), a) && reply.entry == Captured(w, a);
      KeyIff(hash, a, r);
      assert AnsweredAlike(origin, a, r);
      ReplayIsFaithfulIff(hash, origin, a, r, reply.tag);
    }
  }

  /** In every run each client gets the answer it would get with no cache. */
  lemma {:induction false} EveryReplyIsUpstreams(hash: string -> string, origin: Request -> Raw, steps: seq<Step>)
    requires CollisionFree(hash) && Respects(origin)
    ensures FaithfulAfter(hash, origin, steps)
  {
    var w := Configured(hash, origin);
    EveryRunKeepsInv(w, steps);
    var s := After(w, steps);
    forall i | 0 <= i < |s.clients| && s.clients[i].phase.Served?
      ensures Faithful(s.clients[i].phase.reply, origin(s.clients[i].request))
    {
      assert ClientOk(w, s, i);
      RespectedIsFaithful(hash, origin, s.clients[i].request, s.clients[i].phase.reply);
    }
  }

  /** The second of two requests joins the flight of the first. */
  function Sharing(a: Request, b: Request): seq<Step> {
    [Rebuild, Arrive(a), Arrive(b), Take(0), Take(1), Miss(0), Miss(1), Join(0), Join(1), Fetch(0), Land(0), Collect(1)]
  }

  lemma {:induction false} AfterNext(w: World, steps: seq<Step>, n: nat)
    requires n < |steps|
    ensures var s := After(w, steps[..n]);
            After(w, steps[..n + 1]) == if Enabled(w, s, steps[n]) then Apply(w, s, steps[n]) else s
  {
    assert steps[..n + 1][..n] == steps[..n];
  }

  lemma {:induction false} BothArrive(w: World, a: Request, b: Request)
    requires w.wellFormed(a) && w.wellFormed(b)
    ensures After(w, Sharing(a, b)[..3]) == State(Slot(0), [{}], [], map[], [Client(a, Arrived), Client(b, Arrived)])
  {
    var steps := Sharing(a, b);
    assert steps[..0] == [];
    AfterNext(w, steps, 0);
    AfterNext(w, steps, 1);
    AfterNext(w, steps, 2);
  }

  lemma {:induction false} BothHold(w: World, a: Request, b: Request)
    requires w.wellFormed(a) && w.wellFormed(b) && w.cacheable(a) && w.cacheable(b)
    ensures After(w, Sharing(a, b)[..5]) ==
              State(Slot(0), [{}], [], map[], [Client(a, Holding(0)), Client(b, Holding(0))])
  {
    BothArrive(w, a, b);
    AfterNext(w, Sharing(a, b), 3);
    AfterNext(w, Sharing(a, b), 4);
  }

  /** Both have loaded the same cache and found nothing. */
  lemma {:induction false} BothMiss(w: World, a: Request, b: Request)
    requires w.wellFormed(a) && w.wellFormed(b) && w.cacheable(a) && w.cacheable(b)
    ensures After(w, Sharing(a, b)[..7]) ==
              State(Slot(0), [{}], [], map[], [Client(a, Missed(0)), Client(b, Missed(0))])
  {
    BothHold(w, a, b);
    AfterNext(w, Sharing(a, b), 5);
    AfterNext(w, Sharing(a, b), 6);
  }

  lemma {:induction false} OneOwns(w: World, a: Request, b: Request)
    requires w.wellFormed(a) && w.wellFormed(b) && w.cacheable(a) && w.cacheable(b) && w.key(a) == w.key(b)
    ensures After(w, Sharing(a, b)[..9]) ==
              State(Slot(0), [{}], [Flight(w.key(a), 0, Flying)], map[w.key(a) := 0],
                    [Client(a, Owning(0, 0)), Client(b, Waiting(0))])
  {
    BothMiss(w, a, b);
    AfterNext(w, Sharing(a, b), 7);
    AfterNext(w, Sharing(a, b), 8);
  }

  lemma {:induction false} OneFetches(w: World, a: Request, b: Request)
    requires w.wellFormed(a) && w.wellFormed(b) && w.cacheable(a) && w.cacheable(b) && w.key(a) == w.key(b)
    requires |w.answer(a).body| <= MAX_BODY
    ensures var s := After(w, Sharing(a, b)[..10]);
            && s.flights == [Flight(w.key(a), 0, Flying)]
            && s.clients == [Client(a, Landing(0, Shared(Captured(w, a)))), Client(b, Waiting(0))]
  {
    OneOwns(w, a, b);
    AfterNext(w, Sharing(a, b), 9);
  }

  /** And is sent the answer to the first, stored or not. */
  lemma {:induction false} SecondGetsFirsts(w: World, a: Request, b: Request)
    requires w.wellFormed(a) && w.wellFormed(b) && w.cacheable(a) && w.cacheable(b) && w.key(a) == w.key(b)
    requires |w.answer(a).body| <= MAX_BODY
    ensures var s := After(w, Sharing(a, b));
            |s.clients| == 2 && s.clients[1] == Client(b, Served(Replayed(Captured(w, a), "MISS")))
  {
    var steps := Sharing(a, b);
    OneFetches(w, a, b);
    AfterNext(w, steps, 10);
    AfterNext(w, steps, 11);
    assert steps[..12] == steps;
  }

  /** Two requests that the upstream tells apart and the key does not. */
  lemma {:induction false} DisrespectShows(hash: string -> string, origin: Request -> Raw, a: Request, b: Request)
    requires CollisionFree(hash) && Delivered(a) && Delivered(b) && CouldBeCached(a) && CouldBeCached(b)
    requires SameResource(a, b) && !AnsweredAlike(origin, a, b)
    ensures !FaithfulAfter(hash, origin, Sharing(a, b))
  {
    var w := Configured(hash, origin);
    KeyIff(hash, a, b);
    SecondGetsFirsts(w, a, b);
    ReplayIsFaithfulIff(hash, origin, a, b, "MISS");
    assert After(w, Sharing(a, b)).clients[1].phase.Served?;
  }

  /** The cache is transparent in every run exactly in front of an upstream that answers such requests alike. */
  lemma {:induction false} TransparentIff(hash: string -> string, origin: Request -> Raw)
    requires CollisionFree(hash)
    ensures (forall steps :: FaithfulAfter(hash, origin, steps)) <==> Respects(origin)
  {
    if Respects(origin) {
      forall steps
        ensures FaithfulAfter(hash, origin, steps)
      {
        EveryReplyIsUpstreams(hash, origin, steps);
      }
    } else {
      var a, b :| && Delivered(a) && Delivered(b) && CouldBeCached(a) && CouldBeCached(b) && SameResource(a, b)
                  && !AnsweredAlike(origin, a, b);
      DisrespectShows(hash, origin, a, b);
    }
  }

  /** An upstream that honours Range: the first byte of a script of two, or all of it. */
  function InParts(r: Request): Raw {
    if "Range" in r.other then Raw(206, map["Content-Length" := ["1"]], [1])
    else Raw(200, map["Content-Length" := ["2"]], [1, 2])
  }

  function Script(other: map<string, seq<string>>): Request {
    Request("", "GET", "h", "/a.js", "", "", "", "", other)
  }

  lemma {:induction false} ScriptIsServed(other: map<string, seq<string>>)
    ensures Delivered(Script(other)) && CouldBeCached(Script(other))
  {
    assert EndsIn("/a.js", "js");
    RequestIff(Script(other), {"js"});
    assert CacheableRequest(Script(other), {"js"});
  }

  lemma {:induction false} PartIsStorable(r: Request)
    requires r == Script(map["Range" := ["bytes=0-0"]])
    ensures CacheableResponse(r, InParts(r))
  {
    assert Decimal(1) == "1";
    DecimalReads(1, 1);
  }

  /** It is not such an upstream: a part is stored like any answer, and a request for the whole is sent the part. */
  lemma {:induction false} PartIsSentForWhole(hash: string -> string)
    requires CollisionFree(hash)
    ensures var part := Script(map["Range" := ["bytes=0-0"]]);
            && CacheableResponse(part, InParts(part))
            && !FaithfulAfter(hash, InParts, Sharing(part, Script(map[])))
  {
    var part, whole := Script(map["Range" := ["bytes=0-0"]]), Script(map[]);
    PartIsStorable(part);
    ScriptIsServed(part.other);
    ScriptIsServed(whole.other);
    DisrespectShows(hash, InParts, part, whole);
  }

  /** e answers a request that any client may make, passed every storage rule, and holds no hop-by-hop field. */
  ghost predicate Fit(e: Entry, r: Request, raw: Raw) {
    && CouldBeCached(r) && CacheableResponse(r, raw)
    && e.status == raw.status && e.body == raw.body
    && (forall name | name in e.header :: name in raw.header && e.header[name] == raw.header[name])
    && forall name | name in raw.header && IsCanonical(name) :: name in e.header <==> EndToEnd(raw.header, name)
  }

  lemma {:induction false} CapturedIsFit(r: Request, raw: Raw)
    requires CouldBeCached(r) && CacheableResponse(r, raw)
    ensures Fit(Entry(raw.status, Kept(raw.header), raw.body), r, raw)
  {
    forall name | name in raw.header && IsCanonical(name)
      ensures name in Kept(raw.header) <==> EndToEnd(raw.header, name)
    {
      KeptIsEndToEnd(raw.header, name);
    }
  }

  // ------------------------------------------------------------------
  // Which requests and responses the rules let through, exactly.

  /** The path ends in a dot and this extension, in whatever case. */
  ghost predicate EndsIn(path: string, ext: string) {
    && ext != "" && |path| > |ext| && path[|path| - |ext| - 1] == '.' && LowerAll(path[|path| - |ext|..]) == ext
    && '.' !in ext && '/' !in ext
  }

  lemma {:induction false} ExtensionIff(path: string, ext: string)
    requires ext != ""
    ensures Extension(path) == ext <==> EndsIn(path, ext)
  {
    if Extension(path) == ext {
      ExtStarts(path, |path|);
      var i := ExtensionAt(path, |path|);
      assert path[i..][1..] == path[i + 1..];
      assert |ext| == |path| - i - 1;
      forall c | c == '.' || c == '/'
        ensures c !in ext
      {
        forall k | 0 <= k < |ext|
          ensures ext[k] != c
        {
          assert ext[k] == Lower(path[i + 1 + k]);
        }
      }
    }
    if EndsIn(path, ext) {
      var i := |path| - |ext| - 1;
      forall j | i < j < |path|
        ensures path[j] != '.' && path[j] != '/'
      {
        assert ext[j - i - 1] == Lower(path[j]);
      }
      ExtFound(path, |path|, i);
      assert path[i..][1..] == path[i + 1..];
    }
  }

  lemma {:induction false} ExtensionAt(path: string, n: nat) returns (i: nat)
    requires n <= |path| && ExtFrom(path, n) != ""
    requires forall j | n <= j < |path| :: path[j] != '/' && path[j] != '.'
    ensures i < n && path[i] == '.' && ExtFrom(path, n) == path[i..]
    ensures forall j | i < j < |path| :: path[j] != '/' && path[j] != '.'
    decreases n
  {
    if path[n - 1] == '.' {
      i := n - 1;
    } else {
      i := ExtensionAt(path, n - 1);
    }
  }

  lemma {:induction false} ExtFound(path: string, n: nat, i: nat)
    requires i < n <= |path| && path[i] == '.' && forall j | i < j < n :: path[j] != '/' && path[j] != '.'
    ensures ExtFrom(path, n) == path[i..]
    decreases n
  {
    if i < n - 1 {
      ExtFound(path, n - 1, i);
    }
  }

  lemma {:induction false} RequestIff(r: Request, exts: set<string>)
    ensures CacheableRequest(r, exts) <==>
            && (r.verb == "GET" || r.verb == "HEAD") && r.authorization == "" && r.cookie == ""
            && exists ext | ext in exts :: EndsIn(r.path, ext)
  {
    if ext :| ext in exts && EndsIn(r.path, ext) {
      ExtensionIff(r.path, ext);
    }
    if HasAllowedExtension(r.path, exts) {
      ExtensionIff(r.path, Extension(r.path));
    }
  }

  function Decimal(n: nat): string {
    if n < 10 then [('0' as int + n) as char] else Decimal(n / 10) + [('0' as int + n % 10) as char]
  }

  lemma {:induction false} DecimalValue(n: nat)
    ensures IsNumeral(Decimal(n)) && ValueOf(Decimal(n)) == n
    decreases n
  {
    if n >= 10 {
      DecimalValue(n / 10);
      var head, last := Decimal(n / 10), ('0' as int + n % 10) as char;
      assert (head + [last])[..|head|] == head;
    } else {
      assert Decimal(n)[..0] == "";
    }
  }

  /** The usual way to write a number reads as that number and no other. */
  lemma {:induction false} DecimalReads(n: nat, m: nat)
    ensures Reads(Decimal(n), m) <==> m == n
  {
    DecimalValue(n);
    assert '0' <= Decimal(n)[0] <= '9';
  }

  /** The kinds of files, and how their types start. */
  ghost predicate Kind(ext: string, types: seq<string>) {
    || (ext == "js" && types == ["application/javascript", "text/javascript", "application/x-javascript"])
    || (ext == "css" && types == ["text/css"])
    || (ext == "png" && types == ["image/png"])
    || (ext == "jpg" && types == ["image/jpeg"])
    || (ext == "jpeg" && types == ["image/jpeg"])
    || (ext == "svg" && types == ["image/svg+xml", "text/xml", "application/xml"])
    || (ext == "webp" && types == ["image/webp"])
    || (ext == "woff" && types == ["font/woff", "application/font-woff"])
    || (ext == "woff2" && types == ["font/woff2", "application/font-woff2"])
    || (ext == "gif" && types == ["image/gif"])
    || (ext == "ico" && types == ["image/x-icon", "image/vnd.microsoft.icon"])
  }

  ghost predicate Starts(ct: string, types: seq<string>) { exists a | a in types :: a <= LowerAll(ct) }

  /** Where the path names a kind of file, the type is one of that kind. */
  ghost predicate TypeIsRight(path: string, ct: string) {
    forall ext, types | Kind(ext, types) && EndsIn(path, ext) :: Starts(ct, types)
  }

  lemma {:induction false} KindIff(ext: string, types: seq<string>)
    ensures Kind(ext, types) <==> types == ContentTypes(ext) && types != []
    ensures ContentTypes("") == []
  {}

  lemma {:induction false} TypeIff(path: string, ct: string)
    ensures TypeFits(path, ct) <==> ct == "" || (!("text/html" <= LowerAll(ct)) && TypeIsRight(path, ct))
  {
    var ext := Extension(path);
    KindIff(ext, ContentTypes(ext));
    if ext != "" {
      ExtensionIff(path, ext);
    }
    forall e, types | Kind(e, types) && EndsIn(path, e)
      ensures e == ext && types == ContentTypes(ext)
    {
      KindIff(e, types);
      ExtensionIff(path, e);
    }
  }

  lemma {:induction false} StorableIff(r: Request, raw: Raw)
    ensures CacheableResponse(r, raw) <==>
            && r.authorization == "" && 200 <= raw.status <= 299 && 1 <= |raw.body| <= 5242880
            && ("Set-Cookie" in raw.header ==> raw.header["Set-Cookie"] == [])
            && (forall word | word in {"private", "no-store", "no-cache", "must-revalidate", "s-maxage=0", "max-age=0"}
                  :: Lacks(First(raw.header, "Cache-Control"), word))
            && (forall line, part | line in AllOf(raw.header, "Vary") && part in Split(line, ',')
                  :: TrimSpace(part) != "*")
            && Reads(First(raw.header, "Content-Length"), |raw.body|)
            && (First(raw.header, "Content-Type") == ""
                || (&& !("text/html" <= LowerAll(First(raw.header, "Content-Type")))
                    && TypeIsRight(r.path, First(raw.header, "Content-Type"))))
  {
    TypeIff(r.path, First(raw.header, "Content-Type"));
    ControlIff(First(raw.header, "Cache-Control"));
  }

  lemma {:induction false} ControlIff(cc: string)
    ensures CacheControlAllowsStorage(cc) <==>
            forall word | word in {"private", "no-store", "no-cache", "must-revalidate", "s-maxage=0", "max-age=0"} ::
              Lacks(cc, word)
  {
    forall word
      ensures !Contains(LowerAll(cc), word) <==> Lacks(cc, word)
    {
      ContainsIff(cc, word);
    }
    assert forall word :: word in BLOCKERS <==>
      word in {"private", "no-store", "no-cache", "must-revalidate", "s-maxage=0", "max-age=0"};
  }

  lemma {:induction false} LowerPart(text: string, i: nat, j: nat)
    requires i <= j <= |text|
    ensures LowerAll(text[i..j]) == LowerAll(text)[i..j] == LowerAll(text)[i..][..j - i]
  {}

  lemma {:induction false} ContainedIsThere(text: string, word: string)
    requires Contains(LowerAll(text), word)
    ensures !Lacks(text, word)
  {
    var i :| 0 <= i <= |text| && word <= LowerAll(text)[i..];
    LowerPart(text, i, i + |word|);
    assert LowerAll(text[i..i + |word|]) == word;
  }

  lemma {:induction false} ThereIsContained(text: string, word: string, i: nat, j: nat)
    requires i <= j <= |text| && LowerAll(text[i..j]) == word
    ensures Contains(LowerAll(text), word)
  {
    LowerPart(text, i, j);
    assert word <= LowerAll(text)[i..];
  }

  lemma {:induction false} ContainsIff(text: string, word: string)
    ensures !Contains(LowerAll(text), word) <==> Lacks(text, word)
  {
    if Contains(LowerAll(text), word) {
      ContainedIsThere(text, word);
    } else if !Lacks(text, word) {
      var i: nat, j: nat :| i <= j <= |text| && LowerAll(text[i..j]) == word;
      ThereIsContained(text, word, i, j);
    }
  }

  /** The word stands nowhere in the text, in whatever case. */
  ghost predicate Lacks(text: string, word: string) {
    forall i, j | 0 <= i <= j <= |text| :: LowerAll(text[i..j]) != word
  }

  /** The path ends in a dot and more, with no slash after the dot. */
  ghost predicate HasExtension(path: string) {
    exists i | 0 <= i < |path| - 1 :: path[i] == '.' && forall j | i < j < |path| :: path[j] != '/' && path[j] != '.'
  }

  lemma {:induction false} ExtFromFinds(path: string, i: nat)
    requires i <= |path| && |ExtFrom(path, i)| > 1 && forall j | i <= j < |path| :: path[j] != '/' && path[j] != '.'
    ensures HasExtension(path)
    decreases i
  {
    if i > 0 && path[i - 1] != '/' && path[i - 1] != '.' {
      ExtFromFinds(path, i - 1);
    } else {
      assert path[i - 1] == '.' && 0 <= i - 1 < |path| - 1;
    }
  }

  lemma {:induction false} AllowedHasExtension(r: Request, exts: set<string>)
    requires CacheableRequest(r, exts)
    ensures HasExtension(r.path)
  {
    ExtStarts(r.path, |r.path|);
    ExtFromFinds(r.path, |r.path|);
  }

  /** What is found starts with the dot. */
  lemma {:induction false} ExtStarts(path: string, i: nat)
    requires i <= |path|
    ensures ExtFrom(path, i) != "" ==> "." <= ExtFrom(path, i)
    decreases i
  {
    if i > 0 && path[i - 1] != '/' && path[i - 1] != '.' {
      ExtStarts(path, i - 1);
    }
  }

  /** The rules that keep one client's response from another, and a broken one from all. */
  ghost predicate Harmless(e: Entry, r: Request, raw: Raw) {
    && (r.verb == "GET" || r.verb == "HEAD") && r.authorization == "" && r.cookie == ""
    && HasExtension(r.path)
    && 200 <= e.status <= 299 && 1 <= |e.body| <= 5242880
    && ("Set-Cookie" in e.header ==> e.header["Set-Cookie"] == [])
    && (forall word | word in {"private", "no-store", "no-cache", "must-revalidate", "s-maxage=0", "max-age=0"} ::
          Lacks(First(raw.header, "Cache-Control"), word))
    && (forall line, part | line in AllOf(raw.header, "Vary") && part in Split(line, ',') :: TrimSpace(part) != "*")
    && !("text/html" <= LowerAll(First(raw.header, "Content-Type")))
    && "Content-Length" in raw.header && Reads(First(raw.header, "Content-Length"), |e.body|)
  }

  lemma {:induction false} FitIsHarmless(e: Entry, r: Request, raw: Raw)
    requires Fit(e, r, raw)
    ensures Harmless(e, r, raw)
  {
    ControlIff(First(raw.header, "Cache-Control"));
    var exts :| CacheableRequest(r, exts);
    AllowedHasExtension(r, exts);
  }

  /** In every run every entry of every cache is fit, and comes from a request with the entry's own key. */
  lemma {:induction false} EveryEntryIsFit(
    hash: string -> string, origin: Request -> Raw, steps: seq<Step>, slot: nat, key: string, e: Entry)
    returns (r: Request)
    ensures InSlot(After(Configured(hash, origin), steps), slot, key, e) ==>
              && Delivered(r) && key == hash(Layout(Canon(r))) && Fit(e, r, origin(r)) == true
              && Harmless(e, r, origin(r)) == true
  {
    var w := Configured(hash, origin);
    EveryRunKeepsInv(w, steps);
    if InSlot(After(w, steps), slot, key, e) {
      assert Earned(w, (key, e).0, (key, e).1);
      r :| Fetches(w, key, r) && w.storable(r, w.answer(r)) && e == Captured(w, r);
      CapturedIsFit(r, w.answer(r));
      FitIsHarmless(e, r, w.answer(r));
    } else {
      r := Request("", "", "", "", "", "", "", "", map[]);
    }
  }
}
