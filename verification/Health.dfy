/**
  The health checker of internal/torpool/health.go. Per port it counts
  consecutive failed probes, quarantines an instance that reaches three, and
  sends it for replacement when it is still failing after the grace period.

  A probe takes hold of the port's tracker object when it begins and reports to
  that object when it ends, whatever happens to the port in between: ForgetPort
  throws the object away, and the next probe of the port gets a new one. So
  tracker objects are numbered. Each access of a probe to shared state is a step
  here; steps of replacements and of ForgetPort may come between any two. The
  history of a port (module ProbeHistory) says how far its probe has come.
 */
module Health {
  import opened Flights
  import opened ProbeHistory

  datatype Quarantine = Quarantine(since: int, expiresAt: int)

  // ------------------------------------------------------------------
  // The maps: current tracker by port, counts by tracker, quarantine by port.

  datatype Book = Book(trackers: map<int, nat>, counts: map<nat, nat>, quarantined: map<int, Quarantine>, next: nat)

  function CountOf(b: Book, id: nat): nat { if id in b.counts then b.counts[id] else 0 }

  function HistoryOf(histories: map<int, seq<Note>>, port: int): seq<Note> {
    if port in histories then histories[port] else []
  }

  /** Which port a tracker was made for. */
  type Owners = map<nat, int>

  /** Every tracker has counted what its port's history says. */
  ghost predicate CountsOk(b: Book, owners: Owners, histories: map<int, seq<Note>>) {
    forall id | id in owners :: CountOf(b, id) == Trailing(HistoryOf(histories, owners[id]), id)
  }

  /** The quarantine of a port as its history has it. */
  ghost predicate Stands(b: Book, port: int, s: Standing, grace: int) {
    if port in b.quarantined
    then s == HeldSince(b.quarantined[port].since) && b.quarantined[port].expiresAt == b.quarantined[port].since + grace
    else s == Free
  }

  ghost predicate QuarantineOk(b: Book, histories: map<int, seq<Note>>, grace: int) {
    forall port :: Stands(b, port, StandingOf(HistoryOf(histories, port)), grace)
  }

  ghost predicate HistoriesOk(histories: map<int, seq<Note>>, grace: int) {
    forall port | port in histories :: AllJust(histories[port], grace)
  }

  /** Trackers are numbered as they are made, and a port's current one was made for it. */
  ghost predicate TrackersOk(b: Book, owners: Owners, histories: map<int, seq<Note>>) {
    && (forall id: nat :: id in owners <==> id < b.next)
    && (forall port | port in b.trackers :: b.trackers[port] in owners && owners[b.trackers[port]] == port)
    && (forall id | id in b.counts :: id < b.next)
    && (forall port | port in histories :: IdsBelow(histories[port], b.next))
  }

  /** No note mentions a tracker that does not exist yet. */
  ghost predicate IdsBelow(h: seq<Note>, next: nat) {
    forall i | 0 <= i < |h| && !h[i].Forgotten? :: h[i].id < next
  }

  lemma {:induction false} NewIsZero(h: seq<Note>, id: nat)
    requires IdsBelow(h, id)
    ensures Trailing(h, id) == 0
    decreases |h|
  {
    if h != [] {
      NewIsZero(h[..|h| - 1], id);
    }
  }

  ghost predicate BookOk(b: Book, owners: Owners, histories: map<int, seq<Note>>, grace: int) {
    && CountsOk(b, owners, histories) && QuarantineOk(b, histories, grace)
    && TrackersOk(b, owners, histories) && HistoriesOk(histories, grace)
  }

  function Noted(histories: map<int, seq<Note>>, port: int, n: Note): map<int, seq<Note>> {
    histories[port := HistoryOf(histories, port) + [n]]
  }

  // ------------------------------------------------------------------
  // The steps on the maps.

  /** trackerFor. */
  function Tracked(b: Book, port: int): Book {
    if port in b.trackers then b else b.(trackers := b.trackers[port := b.next], next := b.next + 1)
  }

  lemma {:induction false} TrackKeepsCounts(b: Book, owners: Owners, histories: map<int, seq<Note>>, port: int)
    requires CountsOk(b, owners, histories) && TrackersOk(b, owners, histories)
    ensures CountsOk(Tracked(b, port), owners[b.next := port], histories)
  {
    assert b.next !in owners && b.next !in b.counts;
    NewIsZero(HistoryOf(histories, port), b.next);
  }

  lemma {:induction false} TrackKeepsTrackers(b: Book, owners: Owners, histories: map<int, seq<Note>>, port: int)
    requires TrackersOk(b, owners, histories) && port !in b.trackers
    ensures TrackersOk(Tracked(b, port), owners[b.next := port], histories)
  {
    assert b.next !in owners;
  }

  lemma {:induction false} TrackKeepsBook(
    b: Book, owners: Owners, histories: map<int, seq<Note>>, grace: int, port: int)
    requires BookOk(b, owners, histories, grace)
    ensures BookOk(Tracked(b, port), if port in b.trackers then owners else owners[b.next := port], histories, grace)
  {
    if port !in b.trackers {
      TrackKeepsCounts(b, owners, histories, port);
      TrackKeepsTrackers(b, owners, histories, port);
      forall p
        ensures Stands(Tracked(b, port), p, StandingOf(HistoryOf(histories, p)), grace)
      {
        assert Stands(b, p, StandingOf(HistoryOf(histories, p)), grace);
      }
    }
  }

  function Counted(b: Book, id: nat): Book { b.(counts := b.counts[id := CountOf(b, id) + 1]) }
  function Zeroed(b: Book, id: nat): Book { b.(counts := b.counts[id := 0]) }
  function Released(b: Book, port: int): Book { b.(quarantined := b.quarantined - {port}) }

  function Confined(b: Book, port: int, now: int, grace: int): Book {
    b.(quarantined := b.quarantined[port := Quarantine(now, now + grace)])
  }

  function Dropped(b: Book, port: int): Book {
    b.(trackers := b.trackers - {port}, quarantined := b.quarantined - {port})
  }

  /** What a note stands for in the maps. */
  function BookWith(b: Book, port: int, n: Note, grace: int): Book {
    match n
    case Fail(id) => Counted(b, id)
    case Ok(id) => Zeroed(b, id)
    case Reset(id) => Zeroed(b, id)
    case Held(at, _) => Confined(b, port, at, grace)
    case Cleared(_) => Released(b, port)
    case Lifted(_) => Released(b, port)
    case Forgotten => Dropped(b, port)
    case _ => b
  }

  /** The note is about the port, or about a tracker that was made for it. */
  predicate About(owners: Owners, port: int, n: Note) { n.Forgotten? || (n.id in owners && owners[n.id] == port) }

  lemma {:induction false} CountWith(b: Book, port: int, n: Note, grace: int, k: nat)
    ensures CountOf(BookWith(b, port, n, grace), k) == CountedOn(CountOf(b, k), n, k)
  {}

  lemma {:induction false} TrailingWith(histories: map<int, seq<Note>>, port: int, n: Note, p: int, k: nat)
    requires p != port ==> CountedOn(Trailing(HistoryOf(histories, p), k), n, k) == Trailing(HistoryOf(histories, p), k)
    ensures Trailing(HistoryOf(Noted(histories, port, n), p), k) ==
              CountedOn(Trailing(HistoryOf(histories, p), k), n, k)
  {
    LastNote(HistoryOf(histories, port), n, k);
  }

  lemma {:induction false} CountsAfter(
    b: Book, owners: Owners, histories: map<int, seq<Note>>, grace: int, port: int, n: Note)
    requires CountsOk(b, owners, histories) && About(owners, port, n)
    ensures CountsOk(BookWith(b, port, n, grace), owners, Noted(histories, port, n))
  {
    forall k | k in owners
      ensures CountOf(BookWith(b, port, n, grace), k) == Trailing(HistoryOf(Noted(histories, port, n), owners[k]), k)
    {
      CountWith(b, port, n, grace, k);
      TrailingWith(histories, port, n, owners[k], k);
    }
  }

  lemma {:induction false} StandsWith(b: Book, port: int, n: Note, grace: int, p: int, s: Standing)
    requires Stands(b, p, s, grace)
    ensures Stands(BookWith(b, port, n, grace), p, if p == port then StoodOn(s, n) else s, grace)
  {}

  lemma {:induction false} QuarantineAfter(b: Book, histories: map<int, seq<Note>>, grace: int, port: int, n: Note)
    requires QuarantineOk(b, histories, grace)
    ensures QuarantineOk(BookWith(b, port, n, grace), Noted(histories, port, n), grace)
  {
    forall p
      ensures Stands(BookWith(b, port, n, grace), p, StandingOf(HistoryOf(Noted(histories, port, n), p)), grace)
    {
      StandsWith(b, port, n, grace, p, StandingOf(HistoryOf(histories, p)));
      LastNote(HistoryOf(histories, port), n, 0);
    }
  }

  lemma {:induction false} TrackersAfter(
    b: Book, owners: Owners, histories: map<int, seq<Note>>, grace: int, port: int, n: Note)
    requires TrackersOk(b, owners, histories) && About(owners, port, n)
    ensures TrackersOk(BookWith(b, port, n, grace), owners, Noted(histories, port, n))
  {
    forall p | p in Noted(histories, port, n)
      ensures IdsBelow(Noted(histories, port, n)[p], b.next)
    {
      assert p in histories ==> IdsBelow(histories[p], b.next);
    }
  }

  lemma {:induction false} HistoriesAfter(histories: map<int, seq<Note>>, grace: int, port: int, n: Note)
    requires HistoriesOk(histories, grace) && Just(HistoryOf(histories, port), n, grace)
    ensures HistoriesOk(Noted(histories, port, n), grace)
  {
    JustExtends(HistoryOf(histories, port), n, grace);
  }

  lemma {:induction false} NoteKeepsBook(
    b: Book, owners: Owners, histories: map<int, seq<Note>>, grace: int, port: int, n: Note)
    requires BookOk(b, owners, histories, grace) && About(owners, port, n) && Just(HistoryOf(histories, port), n, grace)
    ensures BookOk(BookWith(b, port, n, grace), owners, Noted(histories, port, n), grace)
  {
    CountsAfter(b, owners, histories, grace, port, n);
    QuarantineAfter(b, histories, grace, port, n);
    TrackersAfter(b, owners, histories, grace, port, n);
    HistoriesAfter(histories, grace, port, n);
  }

  // ------------------------------------------------------------------
  // A probe without interruption, for reference.

  /** The maps afterwards, and whether a replacement was asked for. */
  datatype Probed = Probed(book: Book, asked: bool)

  /** What a probe that found its tracker dead does. */
  function Escalated(b: Book, grace: int, port: int, now: int): Probed {
    if grace <= 0 then Probed(b, true)
    else if port !in b.quarantined then Probed(Confined(b, port, now, grace), false)
    else if now > b.quarantined[port].expiresAt then Probed(Released(b, port), true)
    else Probed(b, false)
  }

  /** What a probe that has counted its failure does. */
  function Judged(b: Book, grace: int, port: int, id: nat, now: int): Probed {
    if CountOf(b, id) < THRESHOLD then Probed(b, false) else Escalated(b, grace, port, now)
  }

  function AfterProbe(b: Book, grace: int, port: int, id: nat, ok: bool, now: int): Probed {
    if ok then Probed(Released(Zeroed(b, id), port), false)
    else Judged(Counted(b, id), grace, port, id, now)
  }

  /** Which is, step by step: the count, the request for a replacement, and the quarantine. */
  lemma {:induction false} ProbeDoes(b: Book, grace: int, port: int, id: nat, ok: bool, now: int)
    ensures var p, due := AfterProbe(b, grace, port, id, ok, now), !ok && CountOf(b, id) + 1 >= 3;
            var held := port in b.quarantined;
            && CountOf(p.book, id) == (if ok then 0 else CountOf(b, id) + 1)
            && (p.asked <==> due && (grace <= 0 || (held && now > b.quarantined[port].expiresAt)))
            && (port in p.book.quarantined <==> !ok && (if due && grace > 0 then !p.asked else held))
            && (port in p.book.quarantined ==>
                  p.book.quarantined[port] == if held then b.quarantined[port] else Quarantine(now, now + grace))
  {}

  // ------------------------------------------------------------------
  // How often a port was forgotten.

  function Forgets(h: seq<Note>): nat {
    if h == [] then 0 else Forgets(h[..|h| - 1]) + if h[|h| - 1].Forgotten? then 1 else 0
  }

  /** The notes of that kind. */
  lemma {:induction false} ForgetsCounts(h: seq<Note>)
    ensures Forgets(h) == |set j: nat | j < |h| && h[j].Forgotten?|
    decreases |h|
  {
    var now := set j: nat | j < |h| && h[j].Forgotten?;
    if h == [] {
      assert now == {};
    } else {
      var n := |h| - 1;
      ForgetsCounts(h[..n]);
      assert now == (set j: nat | j < n && h[..n][j].Forgotten?) + if h[n].Forgotten? then {n} else {};
    }
  }

  /** A port has at most one discarded flag for every time it was forgotten. */
  ghost predicate DiscardsOk(a: Air, histories: map<int, seq<Note>>) {
    forall port :: |DiscardedOf(a, port)| <= Forgets(HistoryOf(histories, port))
  }

  lemma {:induction false} NoteKeepsDiscards(a: Air, a': Air, histories: map<int, seq<Note>>, port: int, n: Note)
    requires DiscardsOk(a, histories)
    requires forall p | p != port :: DiscardedOf(a', p) == DiscardedOf(a, p)
    requires |DiscardedOf(a', port)| <= |DiscardedOf(a, port)| + if n.Forgotten? then 1 else 0
    ensures DiscardsOk(a', Noted(histories, port, n))
  {
    var h := HistoryOf(histories, port);
    assert (h + [n])[..|h|] == h;
    forall p
      ensures |DiscardedOf(a', p)| <= Forgets(HistoryOf(Noted(histories, port, n), p))
    {
      assert |DiscardedOf(a, p)| <= Forgets(HistoryOf(histories, p));
    }
  }

  // ------------------------------------------------------------------
  // Everything the checker holds, and its steps.

  /** A probe under way, with the tracker it reports to. */
  datatype Probe = Probe(port: int, id: nat)

  datatype View = View(book: Book, alive: map<int, bool>, air: Air, owners: Owners, histories: map<int, seq<Note>>)

  ghost predicate Sound(v: View, grace: int) {
    BookOk(v.book, v.owners, v.histories, grace) && AirOk(v.air) && DiscardsOk(v.air, v.histories)
  }

  lemma {:induction false} FreshIsSound(grace: int)
    ensures Sound(View(Book(map[], map[], map[], 0), map[], Air(Flags(map[], {}, 0), {}, map[]), map[], map[]), grace)
  {
    var a := Air(Flags(map[], {}, 0), {}, map[]);
    assert forall p :: FlagsOf(a, p) == {};
    assert AirOk(a);
    assert DiscardsOk(a, map[]);
    assert BookOk(Book(map[], map[], map[], 0), map[], map[], grace);
  }

  /** The probe's tracker was made for its port. */
  predicate Known(v: View, p: Probe) { p.id in v.owners && v.owners[p.id] == p.port }

  /** The port has a tracker. */
  function Equip(v: View, port: int): View {
    v.(book := Tracked(v.book, port),
       owners := if port in v.book.trackers then v.owners else v.owners[v.book.next := port])
  }

  lemma {:induction false} EquipKeepsSound(v: View, grace: int, port: int)
    requires Sound(v, grace)
    ensures Sound(Equip(v, port), grace)
    ensures port in Equip(v, port).book.trackers
    ensures Known(Equip(v, port), Probe(port, Equip(v, port).book.trackers[port]))
    ensures forall p | Known(v, p) :: Known(Equip(v, port), p)
  {
    TrackKeepsBook(v.book, v.owners, v.histories, grace, port);
    assert v.book.next !in v.owners;
  }

  /** One more note in the port's history, and these maps. */
  function Changed(v: View, port: int, n: Note, b: Book): View {
    v.(book := b, histories := Noted(v.histories, port, n))
  }

  /** A step that is one note in the port's history and what the note stands for in the maps. */
  function With(v: View, port: int, n: Note, grace: int): View {
    Changed(v, port, n, BookWith(v.book, port, n, grace))
  }

  lemma {:induction false} NoteKeepsSound(v: View, grace: int, port: int, n: Note)
    requires Sound(v, grace) && !n.Forgotten? && Known(v, Probe(port, n.id))
    requires Just(HistoryOf(v.histories, port), n, grace)
    ensures Sound(With(v, port, n, grace), grace)
  {
    NoteKeepsBook(v.book, v.owners, v.histories, grace, port, n);
    NoteKeepsDiscards(v.air, v.air, v.histories, port, n);
  }

  /** What the maps say is what the history says. */
  lemma {:induction false} MapsTell(v: View, grace: int, p: Probe)
    requires Sound(v, grace) && Known(v, p)
    ensures CountOf(v.book, p.id) == Trailing(HistoryOf(v.histories, p.port), p.id)
    ensures Stands(v.book, p.port, StandingOf(HistoryOf(v.histories, p.port)), grace)
  {}

  /** In every reachable state, on every port. */
  lemma {:induction false} AllAsksAreFounded(v: View, grace: int, port: int)
    requires Sound(v, grace)
    ensures EveryAskIsFounded(HistoryOf(v.histories, port), grace)
  {
    if port in v.histories {
      JustIsFounded(v.histories[port], grace);
    }
  }

  /** What a look at the quarantine finds. */
  function Seen(s: Standing, now: int, id: nat, grace: int): Note {
    if s.Free? then Missing(now, id) else if now > s.at + grace then Expired(now, s.at, id) else Pending(now, id)
  }

  /** A step of flags and replacements that discards nothing. */
  lemma {:induction false} AirKeepsSound(v: View, grace: int, a: Air)
    requires Sound(v, grace) && AirOk(a) && a.discarded == v.air.discarded
    ensures Sound(v.(air := a), grace)
  {
    forall port
      ensures |DiscardedOf(a, port)| <= Forgets(HistoryOf(v.histories, port))
    {
      assert DiscardedOf(a, port) == DiscardedOf(v.air, port);
      assert |DiscardedOf(v.air, port)| <= Forgets(HistoryOf(v.histories, port));
    }
  }

  lemma {:induction false} SoundAir(v: View, grace: int)
    requires Sound(v, grace)
    ensures AirOk(v.air)
  {}

  /** replaceAsync, called by a probe. */
  function AskedView(v: View, p: Probe): View {
    v.(air := Replacing(v.air, p.port), histories := Noted(v.histories, p.port, Asked(p.id)))
  }

  /** Asking leaves the maps alone. */
  lemma {:induction false} AskIsNoted(v: View, grace: int, p: Probe)
    requires Sound(v, grace) && Known(v, p) && Just(HistoryOf(v.histories, p.port), Asked(p.id), grace)
    ensures Sound(v.(histories := Noted(v.histories, p.port, Asked(p.id))), grace)
  {
    NoteKeepsSound(v, grace, p.port, Asked(p.id));
    assert With(v, p.port, Asked(p.id), grace) == v.(histories := Noted(v.histories, p.port, Asked(p.id)));
  }

  lemma {:induction false} AskKeepsSound(v: View, grace: int, p: Probe)
    requires Sound(v, grace) && Known(v, p) && Just(HistoryOf(v.histories, p.port), Asked(p.id), grace)
    ensures Sound(AskedView(v, p), grace)
  {
    SoundAir(v, grace);
    AskIsNoted(v, grace, p);
    ReplacingKeepsAir(v.air, p.port);
    AirKeepsSound(v.(histories := Noted(v.histories, p.port, Asked(p.id))), grace, Replacing(v.air, p.port));
  }

  function ResetView(v: View, port: int): View {
    if port in v.book.trackers
    then Changed(v, port, Reset(v.book.trackers[port]), Zeroed(v.book, v.book.trackers[port]))
    else v
  }

  lemma {:induction false} TrackerIsKnown(v: View, grace: int, port: int)
    requires Sound(v, grace) && port in v.book.trackers
    ensures Known(v, Probe(port, v.book.trackers[port]))
  {}

  function EndedView(v: View, r: Replacement): View { v.(air := Ended(v.air, r)) }

  lemma {:induction false} EndKeepsSound(v: View, grace: int, r: Replacement)
    requires Sound(v, grace) && r in v.air.running
    ensures Sound(EndedView(v, r), grace)
  {
    SoundAir(v, grace);
    EndKeepsAir(v.air, r);
    AirKeepsSound(v, grace, Ended(v.air, r));
  }

  function ForgottenView(v: View, port: int): View {
    Changed(v, port, Forgotten, Dropped(v.book, port)).(air := Flights.Forgotten(v.air, port))
  }

  /** Everything cached for the port goes; its replacements under way, and no others, become orphans. */
  lemma {:induction false} ForgetKeepsSound(v: View, grace: int, port: int)
    requires Sound(v, grace)
    ensures Sound(ForgottenView(v, port), grace)
    ensures forall r | r in v.air.running ::
              Orphan(ForgottenView(v, port).air, r) <==> Orphan(v.air, r) || r.port == port
  {
    NoteKeepsBook(v.book, v.owners, v.histories, grace, port, Forgotten);
    ForgetKeepsAir(v.air, port);
    NoteKeepsDiscards(v.air, Flights.Forgotten(v.air, port), v.histories, port, Forgotten);
  }

  lemma {:induction false} ForgetKeepsPhase(histories: map<int, seq<Note>>, port: int)
    ensures PhaseOf(HistoryOf(Noted(histories, port, Forgotten), port)) == PhaseOf(HistoryOf(histories, port))
  {
    LastNote(HistoryOf(histories, port), Forgotten, 0);
  }

  /** As many replacements of a port are in flight as it has raised flags: one, and one for each forget at most. */
  lemma {:induction false} InFlightExactly(v: View, grace: int, port: int)
    requires Sound(v, grace)
    ensures |InFlight(v.air.running, port)| == |v.air.flags.raised * FlagsOf(v.air, port)|
    ensures |InFlight(v.air.running, port)| <= 1 + Forgets(HistoryOf(v.histories, port))
  {
    InFlightCount(v.air, port);
    assert |DiscardedOf(v.air, port)| <= Forgets(HistoryOf(v.histories, port));
  }

  // ------------------------------------------------------------------
  // The program.

  class HealthChecker {
    const grace: int
    var book: Book
    var alive: map<int, bool>
    var flags: Flags
    var running: set<Replacement>
    ghost var owners: Owners
    ghost var histories: map<int, seq<Note>>
    ghost var discarded: map<int, set<nat>>

    ghost function Now(): View
      reads this
    {
      View(book, alive, Air(flags, running, discarded), owners, histories)
    }

    ghost function History(port: int): seq<Note>
      reads this
    {
      HistoryOf(histories, port)
    }

    ghost predicate Valid()
      reads this
    {
      Sound(Now(), grace)
    }

    constructor (grace: int)
      ensures Valid() && this.grace == grace && running == {} && histories == map[]
      ensures book.trackers == map[] && flags == Flags(map[], {}, 0)
    {
      FreshIsSound(grace);
      this.grace := grace;
      book, alive := Book(map[], map[], map[], 0), map[];
      flags, running := Flags(map[], {}, 0), {};
      owners, histories, discarded := map[], map[], map[];
    }

    /** The fields after a step. */
    method Set(book': Book, alive': map<int, bool>, flags': Flags, running': set<Replacement>,
               ghost owners': Owners, ghost histories': map<int, seq<Note>>, ghost discarded': map<int, set<nat>>)
      modifies this
      ensures Now() == View(book', alive', Air(flags', running', discarded'), owners', histories')
    {
      book, alive, flags, running := book', alive', flags', running';
      owners, histories, discarded := owners', histories', discarded';
    }

    /** How far the port's probe has come. */
    ghost function PhaseAt(port: int): Phase
      reads this
    {
      PhaseOf(HistoryOf(histories, port))
    }

    /** A step of a probe on the maps alone. */
    method Take(port: int, ghost n: Note, book': Book)
      requires Valid() && !n.Forgotten? && Known(Now(), Probe(port, n.id)) && Just(History(port), n, grace)
      requires book' == BookWith(book, port, n, grace)
      modifies this
      ensures Valid() && book == book' && Now() == Changed(old(Now()), port, n, book')
      ensures PhaseAt(port) == PhaseAfter(old(PhaseAt(port)), n)
    {
      LastNote(History(port), n, 0);
      NoteKeepsSound(Now(), grace, port, n);
      Set(book', alive, flags, running, owners, Noted(histories, port, n), discarded);
    }

    /** trackerFor. */
    method TrackerFor(port: int) returns (id: nat)
      requires Valid()
      modifies this
      ensures Valid() && Now() == Equip(old(Now()), port) && Known(Now(), Probe(port, id))
      ensures port in book.trackers && id == book.trackers[port]
    {
      ghost var v := Equip(Now(), port);
      EquipKeepsSound(Now(), grace, port);
      Set(Tracked(book, port), alive, flags, running, v.owners, histories, discarded);
      id := book.trackers[port];
    }

    /** A probe begins: it takes the port's tracker, or makes one. */
    method BeginProbe(port: int) returns (p: Probe)
      requires Valid() && PhaseAt(port).Idle?
      modifies this
      ensures Valid() && Known(Now(), p) && PhaseAt(port) == Probing(p.id)
      ensures Now() == Changed(Equip(old(Now()), port), port, Begun(p.id), book) && book == Tracked(old(book), port)
      ensures port in book.trackers && p == Probe(port, book.trackers[port])
    {
      var id := TrackerFor(port);
      Take(port, Begun(id), book);
      p := Probe(port, id);
    }

    method RecordFailure(p: Probe)
      requires Valid() && Known(Now(), p) && PhaseAt(p.port) == Probing(p.id)
      modifies this
      ensures Valid() && PhaseAt(p.port) == Failed(p.id)
      ensures Now() == Changed(old(Now()), p.port, Fail(p.id), book) && book == Counted(old(book), p.id)
    {
      Take(p.port, Fail(p.id), Counted(book, p.id));
    }

    method RecordSuccess(p: Probe)
      requires Valid() && Known(Now(), p) && PhaseAt(p.port) == Probing(p.id)
      modifies this
      ensures Valid() && PhaseAt(p.port) == Succeeded(p.id)
      ensures Now() == Changed(old(Now()), p.port, Ok(p.id), book)
      ensures book == Zeroed(old(book), p.id)
    {
      Take(p.port, Ok(p.id), Zeroed(book, p.id));
    }

    /** Three failures in a row on the probe's tracker, as of now. */
    method IsDead(p: Probe) returns (dead: bool)
      requires Valid() && Known(Now(), p) && PhaseAt(p.port) == Failed(p.id)
      modifies this
      ensures Valid() && dead == (Trailing(old(History(p.port)), p.id) >= 3)
      ensures PhaseAt(p.port) == if dead then Doomed(p.id) else Idle
      ensures dead == (CountOf(old(book), p.id) >= THRESHOLD) && book == old(book)
      ensures Now() == Changed(old(Now()), p.port, if dead then Dead(p.id) else Spared(p.id), book)
    {
      MapsTell(Now(), grace, p);
      dead := CountOf(book, p.id) >= THRESHOLD;
      Take(p.port, if dead then Dead(p.id) else Spared(p.id), book);
    }

    method SetAlive(port: int, up: bool)
      requires Valid()
      modifies this
      ensures Valid() && Now() == old(Now()).(alive := old(alive)[port := up])
    {
      AliveIsFree(Now(), grace, alive[port := up]);
      alive := alive[port := up];
    }

    /** A dead port's quarantine, as of now: there is one, and it has lasted longer than grace. */
    method LookUp(p: Probe, now: int) returns (found: bool, expired: bool)
      requires Valid() && Known(Now(), p) && PhaseAt(p.port) == Doomed(p.id) && grace > 0
      modifies this
      ensures Valid() && PhaseAt(p.port) == if expired then Ripe(p.id) else if found then Idle else Unheld(p.id, now)
      ensures found == StandingOf(old(History(p.port))).HeldSince?
      ensures expired == (found && now > StandingOf(old(History(p.port))).at + grace)
      ensures book == old(book) && found == (p.port in book.quarantined)
      ensures found ==> expired == (now > book.quarantined[p.port].expiresAt)
      ensures Now() == Changed(old(Now()), p.port, Seen(StandingOf(old(History(p.port))), now, p.id, grace), book)
    {
      MapsTell(Now(), grace, p);
      found := p.port in book.quarantined;
      expired := found && now > book.quarantined[p.port].expiresAt;
      Take(p.port, Seen(StandingOf(History(p.port)), now, p.id, grace), book);
    }

    method Hold(p: Probe, now: int)
      requires Valid() && Known(Now(), p) && PhaseAt(p.port) == Unheld(p.id, now)
      modifies this
      ensures Valid() && PhaseAt(p.port) == Idle && Now() == Changed(old(Now()), p.port, Held(now, p.id), book)
      ensures book == Confined(old(book), p.port, now, grace)
    {
      Take(p.port, Held(now, p.id), Confined(book, p.port, now, grace));
    }

    /** The quarantine goes because it has expired, even if it is a new one by now. */
    method Clear(p: Probe)
      requires Valid() && Known(Now(), p) && PhaseAt(p.port) == Ripe(p.id)
      modifies this
      ensures Valid() && PhaseAt(p.port) == Cleaned(p.id)
      ensures Now() == Changed(old(Now()), p.port, Cleared(p.id), book)
      ensures book == Released(old(book), p.port)
    {
      Take(p.port, Cleared(p.id), Released(book, p.port));
    }

    /** The quarantine goes because a probe succeeded. */
    method Lift(p: Probe)
      requires Valid() && Known(Now(), p) && PhaseAt(p.port) == Succeeded(p.id)
      modifies this
      ensures Valid() && PhaseAt(p.port) == Idle && Now() == Changed(old(Now()), p.port, Lifted(p.id), book)
      ensures book == Released(old(book), p.port)
    {
      Take(p.port, Lifted(p.id), Released(book, p.port));
    }

    /** The compare-and-swap on the port's flag; StartsIff says when it lets another goroutine through. */
    method ReplaceAsync(p: Probe) returns (started: bool)
      requires Valid() && Known(Now(), p) && PhaseAt(p.port) == if grace > 0 then Cleaned(p.id) else Doomed(p.id)
      modifies this
      ensures Valid() && PhaseAt(p.port) == Idle
      ensures started == !old(flags.Busy(p.port)) && Now() == AskedView(old(Now()), p)
    {
      LastNote(History(p.port), Asked(p.id), 0);
      AskKeepsSound(Now(), grace, p);
      ghost var v := AskedView(Now(), p);
      var flags', running';
      started, flags', running' := RaiseFlag(flags, running, p.port, discarded);
      Set(book, alive, flags', running', owners, v.histories, discarded);
    }

    /** The flags and the replacements under way. */
    ghost function AirNow(): Air
      reads this
    {
      Air(flags, running, discarded)
    }

    /** The end of a failed probe whose tracker is dead, when nothing comes between its steps. */
    method Escalate(p: Probe, now: int) returns (asked: bool)
      requires Valid() && Known(Now(), p) && PhaseAt(p.port) == Doomed(p.id)
      modifies this
      ensures Valid() && PhaseAt(p.port) == Idle && owners == old(owners) && alive == old(alive)
      ensures Probed(book, asked) == Escalated(old(book), grace, p.port, now)
      ensures AirNow() == if asked then Replacing(old(AirNow()), p.port) else old(AirNow())
    {
      var started;
      asked := grace <= 0;
      if asked {
        started := ReplaceAsync(p);
        return;
      }
      var found, expired := LookUp(p, now);
      if expired {
        Clear(p);
        started := ReplaceAsync(p);
        asked := true;
      } else if !found {
        Hold(p, now);
      }
    }

    /** The end of a successful probe, likewise. */
    method Succeed(p: Probe)
      requires Valid() && Known(Now(), p) && PhaseAt(p.port) == Probing(p.id)
      modifies this
      ensures Valid() && PhaseAt(p.port) == Idle && owners == old(owners) && AirNow() == old(AirNow())
      ensures Probed(book, false) == AfterProbe(old(book), grace, p.port, p.id, true, 0)
      ensures alive == old(alive)[p.port := true]
    {
      RecordSuccess(p);
      Lift(p);
      SetAlive(p.port, true);
    }

    method Judge(p: Probe, now: int) returns (asked: bool)
      requires Valid() && Known(Now(), p) && PhaseAt(p.port) == Failed(p.id)
      modifies this
      ensures Valid() && PhaseAt(p.port) == Idle && owners == old(owners)
      ensures Probed(book, asked) == Judged(old(book), grace, p.port, p.id, now)
      ensures alive == if CountOf(old(book), p.id) >= 3 then old(alive)[p.port := false] else old(alive)
      ensures AirNow() == if asked then Replacing(old(AirNow()), p.port) else old(AirNow())
    {
      var dead := IsDead(p);
      asked := false;
      if dead {
        SetAlive(p.port, false);
        asked := Escalate(p, now);
      }
    }

    /** The end of a failed probe, likewise. */
    method FailOnce(p: Probe, now: int) returns (asked: bool)
      requires Valid() && Known(Now(), p) && PhaseAt(p.port) == Probing(p.id)
      modifies this
      ensures Valid() && PhaseAt(p.port) == Idle && owners == old(owners)
      ensures Probed(book, asked) == AfterProbe(old(book), grace, p.port, p.id, false, now)
      ensures alive == if CountOf(old(book), p.id) + 1 >= 3 then old(alive)[p.port := false] else old(alive)
      ensures AirNow() == if asked then Replacing(old(AirNow()), p.port) else old(AirNow())
    {
      RecordFailure(p);
      asked := Judge(p, now);
    }

    /** checkOne when nothing comes between its steps. */
    method CheckOne(port: int, ok: bool, now: int) returns (asked: bool, p: Probe)
      requires Valid() && PhaseAt(port).Idle?
      modifies this
      ensures Valid() && PhaseAt(port).Idle? && Known(Now(), p)
      ensures port in Tracked(old(book), port).trackers && p == Probe(port, Tracked(old(book), port).trackers[port])
      ensures Probed(book, asked) == AfterProbe(Tracked(old(book), port), grace, port, p.id, ok, now)
      // taken for up after a success, and for down from the third failure in a row on
      ensures alive == if ok then old(alive)[port := true]
                       else if CountOf(Tracked(old(book), port), p.id) + 1 >= 3 then old(alive)[port := false]
                       else old(alive)
      ensures AirNow() == if asked then Replacing(old(AirNow()), port) else old(AirNow())
    {
      asked := false;
      p := BeginProbe(port);
      if ok {
        Succeed(p);
      } else {
        asked := FailOnce(p, now);
      }
    }

    /** A replacement has succeeded: the tracker of its port starts over. Its goroutine is still running. */
    method ReplaceSucceeded(r: Replacement)
      requires Valid() && r in running
      modifies this
      ensures Valid() && Now() == ResetView(old(Now()), r.port) && PhaseAt(r.port) == old(PhaseAt(r.port))
    {
      if r.port in book.trackers {
        TrackerIsKnown(Now(), grace, r.port);
        Take(r.port, Reset(book.trackers[r.port]), Zeroed(book, book.trackers[r.port]));
      }
    }

    /** A replacement goroutine ends, successful or not, and lowers its flag. */
    method ReplaceEnds(r: Replacement)
      requires Valid() && r in running
      modifies this
      ensures Valid() && Now() == EndedView(old(Now()), r)
    {
      EndKeepsSound(Now(), grace, r);
      Set(book, alive, flags.(raised := flags.raised - {r.flag}), running - {r}, owners, histories, discarded);
    }

    method ForgetPort(port: int)
      requires Valid()
      modifies this
      ensures Valid() && Now() == ForgottenView(old(Now()), port) && PhaseAt(port) == old(PhaseAt(port))
    {
      ForgetKeepsPhase(histories, port);
      ghost var v := ForgottenView(Now(), port);
      ForgetKeepsSound(Now(), grace, port);
      Set(Dropped(book, port), alive,
          if port in flags.current then flags.(current := flags.current - {port}) else flags, running,
          owners, v.histories, v.air.discarded);
    }

    /** As many replacements of a port are in flight as it has raised flags: one, and one for each forget at most. */
    lemma OneInFlight(port: int)
      requires Valid()
      ensures |InFlight(running, port)| == |flags.raised * FlagsOf(Now().air, port)|
      ensures |InFlight(running, port)| <= 1 + Forgets(History(port))
    {
      InFlightExactly(Now(), grace, port);
    }

    /**
      Over every run, whatever came between the steps of a probe: no replacement is
      asked for without its own cause.
     */
    lemma NoneWithoutCause(port: int)
      requires Valid()
      ensures EveryAskIsFounded(History(port), grace)
    {
      AllAsksAreFounded(Now(), grace, port);
    }
  }

  /** The alive flags are not part of the invariant. */
  lemma {:induction false} AliveIsFree(v: View, grace: int, alive: map<int, bool>)
    requires Sound(v, grace)
    ensures Sound(v.(alive := alive), grace)
  {}

  lemma {:induction false} NewTracker(v: View, grace: int, port: int)
    requires Sound(v, grace) && port !in v.book.trackers
    ensures CountOf(Tracked(v.book, port), v.book.next) == 0
  {}

  /** A whole probe of a port that has a tracker, without grace: it fails, and asks from the third time on. */
  method FailAgain(h: HealthChecker, port: int, id: nat) returns (asked: bool)
    requires h.Valid() && h.grace == 0 && h.PhaseAt(port).Idle?
    requires port in h.book.trackers && h.book.trackers[port] == id
    modifies h
    ensures h.Valid() && h.PhaseAt(port).Idle? && h.book.trackers == old(h.book.trackers)
    ensures CountOf(h.book, id) == CountOf(old(h.book), id) + 1 && asked == (CountOf(h.book, id) >= THRESHOLD)
    ensures h.AirNow() == if asked then Replacing(old(h.AirNow()), port) else old(h.AirNow())
  {
    var p;
    asked, p := h.CheckOne(port, false, 0);
  }

  /** Three probes of a port without a tracker fail, and the last one asks for a replacement. */
  method FailThrice(h: HealthChecker, port: int) returns (r: Replacement)
    requires h.Valid() && h.grace == 0 && h.PhaseAt(port).Idle?
    requires port !in h.book.trackers && !h.flags.Busy(port)
    modifies h
    ensures h.Valid() && h.PhaseAt(port).Idle? && port in h.book.trackers
    ensures CountOf(h.book, h.book.trackers[port]) >= THRESHOLD
    ensures r.port == port && r !in old(h.running) && h.running == old(h.running) + {r}
  {
    NewTracker(h.Now(), 0, port);
    var asked, p := h.CheckOne(port, false, 0);
    asked := FailAgain(h, port, p.id);
    SoundAir(h.Now(), 0);
    StartsAnew(h.AirNow(), port);
    asked := FailAgain(h, port, p.id);
    r := Replacement(port, h.flags.current[port]);
  }

  method ForgetBetween(h: HealthChecker, port: int)
    requires h.Valid() && h.PhaseAt(port).Idle?
    modifies h
    ensures h.Valid() && h.PhaseAt(port).Idle? && port !in h.book.trackers && port !in h.flags.current
    ensures h.running == old(h.running)
  {
    h.ForgetPort(port);
  }

  /** Two replacements of one port: it is forgotten while the first is running, and its next instance fails as well. */
  method OverlapAfterForget(port: int) returns (h: HealthChecker, first: Replacement, second: Replacement)
    ensures fresh(h) && h.Valid() && first != second
    ensures first in InFlight(h.running, port) && second in InFlight(h.running, port)
  {
    h := new HealthChecker(0);
    first := FailThrice(h, port);
    ForgetBetween(h, port);
    second := FailThrice(h, port);
  }

  /** One more probe fails and finds the tracker dead. */
  method FindDead(h: HealthChecker, port: int) returns (p: Probe)
    requires h.Valid() && h.PhaseAt(port).Idle?
    requires port in h.book.trackers && CountOf(h.book, h.book.trackers[port]) >= THRESHOLD
    modifies h
    ensures h.Valid() && h.PhaseAt(port) == Doomed(p.id) && Known(h.Now(), p)
    ensures port in h.book.trackers && p == Probe(port, h.book.trackers[port]) && h.AirNow() == old(h.AirNow())
  {
    p := h.BeginProbe(port);
    h.RecordFailure(p);
    var dead := h.IsDead(p);
  }

  /** Then the replacement that is running resets the tracker and ends. */
  method ResetBetween(h: HealthChecker, p: Probe, r: Replacement)
    requires h.Valid() && h.PhaseAt(p.port) == Doomed(p.id) && Known(h.Now(), p) && r in h.running && r.port == p.port
    requires p.port in h.book.trackers && p.id == h.book.trackers[p.port]
    modifies h
    ensures h.Valid() && h.PhaseAt(p.port) == Doomed(p.id) && Known(h.Now(), p)
    ensures CountOf(h.book, p.id) == 0 && h.AirNow() == Ended(old(h.AirNow()), r)
  {
    h.ReplaceSucceeded(r);
    h.ReplaceEnds(r);
  }

  /**
    Four whole probes, the last one overtaken by a reset: a port whose tracker
    counts no failure is sent for replacement.
   */
  method ReplacedAfterReset(port: int) returns (h: HealthChecker, p: Probe, started: bool)
    ensures fresh(h) && h.Valid() && p.port == port && started && Trailing(h.History(port), p.id) == 0
  {
    h := new HealthChecker(0);
    var r := FailThrice(h, port);
    p := FindDead(h, port);
    ResetBetween(h, p, r);
    SoundAir(h.Now(), 0);
    BusyIff(h.AirNow(), port);
    started := h.ReplaceAsync(p);
    MapsTell(h.Now(), 0, p);
  }
}
