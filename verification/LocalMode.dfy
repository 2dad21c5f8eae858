/**
  Local mode of internal/proxy/snapshot.go: the edge runs in the hub's process
  and re-reads the hub on every event, so events may be lost on the way.

  Changing the hub's state and broadcasting the change are separate steps, and
  so are every channel operation (module Pipeline), the read of the hub's
  snapshot and the reload of the feature registry. The hub of a local client
  changes through edits of its data directory, whose handling copies the state,
  reads the directory and commits in three steps, one edit at a time
  (internal/hub/storage.go, the watcher's mutex). Changes through the hub's
  methods may come between any of these.
 */
module LocalMode {
  import opened Config
  import opened EdgeFold
  import opened Pipeline
  import opened Text
  import Features

  datatype HubState = HubState(globals: GlobalsConf, tenants: map<string, TenantConf>)

  datatype Change = Upsert(t: TenantConf) | Delete(host: string) | SetGlobals(globals: GlobalsConf)

  /** An upsert without a host is refused; deleting an unknown host changes nothing. Neither is announced. */
  predicate Announced(h: HubState, c: Change) {
    match c
    case Upsert(t) => t.host != ""
    case Delete(host) => host in h.tenants
    case SetGlobals(_) => true
  }

  function Apply(h: HubState, c: Change): HubState {
    match c
    case Upsert(t) => h.(tenants := h.tenants[t.host := t])
    case Delete(host) => h.(tenants := h.tenants - {host})
    case SetGlobals(g) => h.(globals := g)
  }

  /** translateGlobals and translateTenantsConf: of hosts that differ only in case, any one may win. */
  ghost predicate Translates(h: HubState, e: Edge) {
    && e.globals == TranslateGlobals(h.globals)
    && (forall k | k in e.tenants ::
          exists x :: x in h.tenants && LowerAll(x) == k && e.tenants[k] == TranslateTenant(h.tenants[x]))
    && (forall x | x in h.tenants :: LowerAll(x) in e.tenants)
  }

  /** What the edge's features make of a translation. */
  datatype Setup = Setup(accepts: Edge -> bool)

  /** Whatever translation comes out is accepted. */
  ghost predicate Acceptable(h: HubState, u: Setup) { forall e | Translates(h, e) :: u.accepts(e) }

  /** The apply loop: waiting for an event, about to read the hub, about to reload. */
  datatype Applier = Waits | Reads | Reloads(seen: HubState)

  /** onExternalChange: not running, about to read the directory, about to commit. */
  datatype Editor = NoEdit | Copied(prev: HubState) | Loaded(prev: HubState, next: HubState)

  /** lost: a commit has changed the hub and announced nothing, and the hub has not been read since. */
  datatype System = System(
    hub: HubState, unsent: nat, pipe: Pipe<()>, applier: Applier, published: Edge, editor: Editor, lost: bool)

  datatype Action =
    | ChangeHub(change: Change)
    | EditBegins | EditFails | EditLoads(next: HubState) | EditCommits(announcements: nat)
    | Broadcast
    | TrySend | DropOldest | Take | Offer | ClearOldest | Reoffer
    | Receive
    | ReadHub
    | Reload(translation: Edge)

  function ChannelStep(a: Action): Pipeline.Action<()>
    requires a.TrySend? || a.DropOldest? || a.Take? || a.Offer? || a.ClearOldest? || a.Reoffer?
  {
    match a
    case TrySend => Pipeline.TrySend
    case DropOldest => Pipeline.DropOldest
    case Take => Pipeline.Take
    case Offer => Pipeline.Offer
    case ClearOldest => Pipeline.ClearOldest
    case Reoffer => Pipeline.Reoffer
  }

  ghost function Next(s: System, a: Action, u: Setup): System {
    match a
    case ChangeHub(c) =>
      if Announced(s.hub, c) then s.(hub := Apply(s.hub, c), unsent := s.unsent + 1) else s
    case EditBegins => if s.editor.NoEdit? then s.(editor := Copied(s.hub)) else s
    case EditFails => if s.editor.Copied? then s.(editor := NoEdit) else s
    case EditLoads(next) => if s.editor.Copied? then s.(editor := Loaded(s.editor.prev, next)) else s
    case EditCommits(announcements) =>
      // DiffEvents: no event exactly when the directory says what the copy does
      if s.editor.Loaded? && (announcements == 0 <==> s.editor.next == s.editor.prev) then
        s.(hub := s.editor.next, unsent := s.unsent + announcements, editor := NoEdit,
           lost := s.lost || (announcements == 0 && s.editor.next != s.hub))
      else s
    case Broadcast =>
      if s.unsent > 0 && s.pipe.sender.Idle? then
        s.(unsent := s.unsent - 1, pipe := Step(s.pipe, Enqueue(()), LOCAL_BUFFER))
      else s
    case Receive =>
      if s.applier.Waits? && s.pipe.second != [] then
        s.(pipe := Step(s.pipe, Read, LOCAL_BUFFER), applier := Reads)
      else s
    case ReadHub => if s.applier.Reads? then s.(applier := Reloads(s.hub), lost := false) else s
    case Reload(next) =>
      if s.applier.Reloads? && Translates(s.applier.seen, next) then
        s.(applier := Waits, published := if u.accepts(next) then next else s.published)
      else s
    case _ => s.(pipe := Step(s.pipe, ChannelStep(a), LOCAL_BUFFER))
  }

  /** What a method of the hub does: a tenant without a host is refused, an unknown one cannot be deleted. */
  lemma {:induction false} ChangeDoes(s: System, t: TenantConf, host: string, g: GlobalsConf, u: Setup)
    ensures var s' := Next(s, ChangeHub(Upsert(t)), u);
            s' == if t.host == "" then s
                  else s.(hub := HubState(s.hub.globals, s.hub.tenants[t.host := t]), unsent := s.unsent + 1)
    ensures var s' := Next(s, ChangeHub(Delete(host)), u);
            s' == if host !in s.hub.tenants then s
                  else s.(hub := HubState(s.hub.globals, s.hub.tenants - {host}), unsent := s.unsent + 1)
    ensures Next(s, ChangeHub(SetGlobals(g)), u) ==
              s.(hub := HubState(g, s.hub.tenants), unsent := s.unsent + 1)
  {}

  /** A fresh subscription: the snapshot event is still to be enqueued. */
  function Start(hub: HubState, published: Edge): System { System(hub, 1, Empty(), Waits, published, NoEdit, false) }

  ghost function RunFrom(s: System, actions: seq<Action>, u: Setup): System {
    if actions == [] then s
    else Next(RunFrom(s, actions[..|actions| - 1], u), actions[|actions| - 1], u)
  }

  /** Some announcement has not led to a read of the hub yet. */
  predicate Busy(s: System) { s.unsent > 0 || Waiting(s.pipe) != [] || s.applier.Reads? }

  ghost predicate Settled(s: System, u: Setup) { Acceptable(s.hub, u) ==> Translates(s.hub, s.published) }

  ghost predicate LocalInv(s: System, u: Setup) {
    && Inv(s.pipe, LOCAL_BUFFER)
    && (!Busy(s) && !s.lost ==> if s.applier.Reloads? then s.applier.seen == s.hub else Settled(s, u))
  }

  /** A channel step never empties the pipeline: whatever is dropped, something newer is behind it. */
  lemma {:induction false} ChannelKeepsWaiting(p: Pipe<()>, a: Action)
    requires Inv(p, LOCAL_BUFFER) == true && Waiting(p) != []
    requires a.TrySend? || a.DropOldest? || a.Take? || a.Offer? || a.ClearOldest? || a.Reoffer?
    ensures Waiting(Step(p, ChannelStep(a), LOCAL_BUFFER)) != []
  {
    var p' := Step(p, ChannelStep(a), LOCAL_BUFFER);
    assert p'.second != [] || CourierHolds(p'.courier) != [] || p'.first != [] || SenderHolds(p'.sender) != [];
  }

  /** Steps of the channels leave hub and edge alone and never empty the pipeline. */
  lemma {:induction false} ChannelKeepsInv(s: System, a: Action, u: Setup)
    requires LocalInv(s, u)
    requires a.TrySend? || a.DropOldest? || a.Take? || a.Offer? || a.ClearOldest? || a.Reoffer?
    ensures LocalInv(Next(s, a, u), u)
  {
    PipeHolds(s, u);
    StepKeepsInv(s.pipe, ChannelStep(a), LOCAL_BUFFER);
    if Waiting(s.pipe) != [] {
      ChannelKeepsWaiting(s.pipe, a);
    }
    PipeChanges(s, Step(s.pipe, ChannelStep(a), LOCAL_BUFFER), u);
  }

  lemma {:induction false} PipeHolds(s: System, u: Setup)
    requires LocalInv(s, u)
    ensures Inv(s.pipe, LOCAL_BUFFER) == true
  {}

  /** Only the pipeline changes, and it is not emptied. */
  lemma {:induction false} PipeChanges(s: System, pipe: Pipe<()>, u: Setup)
    requires LocalInv(s, u) && Inv(pipe, LOCAL_BUFFER) == true
    requires Waiting(s.pipe) != [] ==> Waiting(pipe) != []
    ensures LocalInv(s.(pipe := pipe), u)
  {}

  lemma {:induction false} BroadcastKeepsInv(s: System, u: Setup)
    requires LocalInv(s, u)
    ensures LocalInv(Next(s, Broadcast, u), u)
  {
    PipeHolds(s, u);
    if s.unsent > 0 && s.pipe.sender.Idle? {
      StepKeepsInv(s.pipe, Enqueue(()), LOCAL_BUFFER);
      assert SenderHolds(Next(s, Broadcast, u).pipe.sender) != [];
    }
  }

  lemma {:induction false} ReceiveKeepsInv(s: System, u: Setup)
    requires LocalInv(s, u)
    ensures LocalInv(Next(s, Receive, u), u)
  {
    PipeHolds(s, u);
    StepKeepsInv(s.pipe, Read, LOCAL_BUFFER);
  }

  /**
    The edge publishes what it read, if that is accepted; the hub has not changed
    since unless an announcement is due.
   */
  lemma {:induction false} ReloadKeepsInv(s: System, next: Edge, u: Setup)
    requires LocalInv(s, u)
    ensures LocalInv(Next(s, Reload(next), u), u)
  {}

  lemma {:induction false} NextKeepsInv(s: System, a: Action, u: Setup)
    requires LocalInv(s, u)
    ensures LocalInv(Next(s, a, u), u)
  {
    match a
    case ChangeHub(c) =>
    case EditBegins =>
    case EditFails =>
    case EditLoads(next) =>
    case EditCommits(announcements) =>
    case Broadcast => BroadcastKeepsInv(s, u);
    case Receive => ReceiveKeepsInv(s, u);
    case ReadHub =>
    case Reload(next) => ReloadKeepsInv(s, next, u);
    case _ => ChannelKeepsInv(s, a, u);
  }

  lemma {:induction false} EveryRunKeepsInv(hub: HubState, published: Edge, actions: seq<Action>, u: Setup)
    ensures LocalInv(RunFrom(Start(hub, published), actions, u), u)
    decreases actions
  {
    if actions == [] {
      Pipeline.EveryRunKeepsInv<()>([], LOCAL_BUFFER);
    } else {
      EveryRunKeepsInv(hub, published, actions[..|actions| - 1], u);
      NextKeepsInv(RunFrom(Start(hub, published), actions[..|actions| - 1], u), actions[|actions| - 1], u);
    }
  }

  /** Step i changes the hub through its methods while an edit is being handled. */
  ghost predicate Overlaps(s: System, actions: seq<Action>, u: Setup, i: nat)
    requires i < |actions|
  {
    var before := RunFrom(s, actions[..i], u);
    actions[i].ChangeHub? && Announced(before.hub, actions[i].change) && !before.editor.NoEdit?
  }

  ghost predicate NoOverlap(s: System, actions: seq<Action>, u: Setup) {
    forall i: nat | i < |actions| :: !Overlaps(s, actions, u, i)
  }

  /** Nothing is lost, and an edit under way still holds the hub's state. */
  ghost predicate Undisturbed(s: System) {
    !s.lost && (s.editor.NoEdit? || s.editor.prev == s.hub)
  }

  lemma {:induction false} NextUndisturbed(s: System, a: Action, u: Setup)
    requires Undisturbed(s) && !(a.ChangeHub? && Announced(s.hub, a.change) && !s.editor.NoEdit?)
    ensures Undisturbed(Next(s, a, u))
  {}

  lemma {:induction false} NothingLost(s: System, actions: seq<Action>, u: Setup)
    requires Undisturbed(s) && NoOverlap(s, actions, u)
    ensures Undisturbed(RunFrom(s, actions, u))
    decreases |actions|
  {
    if actions != [] {
      var n := |actions| - 1;
      forall i: nat | i < n
        ensures !Overlaps(s, actions[..n], u, i)
      {
        assert actions[..n][..i] == actions[..i];
        assert !Overlaps(s, actions, u, i);
      }
      NothingLost(s, actions[..n], u);
      assert !Overlaps(s, actions, u, n);
      NextUndisturbed(RunFrom(s, actions[..n], u), actions[n], u);
    }
  }

  /**
    However the steps interleave and however many events either queue drops:
    once nothing is under way, the edge has published the hub's current state,
    provided its features accept that state and no edit has undone a change
    without announcing that. None has if no method changed the hub during an
    edit.
   */
  lemma {:induction false} LocalConvergence(hub: HubState, published: Edge, actions: seq<Action>, u: Setup)
    ensures var s := RunFrom(Start(hub, published), actions, u);
            !Busy(s) && s.applier.Waits? && !s.lost && Acceptable(s.hub, u) ==> Translates(s.hub, s.published)
    ensures NoOverlap(Start(hub, published), actions, u) ==> !RunFrom(Start(hub, published), actions, u).lost
  {
    EveryRunKeepsInv(hub, published, actions, u);
    if NoOverlap(Start(hub, published), actions, u) {
      NothingLost(Start(hub, published), actions, u);
    }
  }

  // ------------------------------------------------------------------
  // The update that is lost.

  lemma {:induction false} RunAppend(s: System, a: seq<Action>, b: seq<Action>, u: Setup)
    ensures RunFrom(s, a + b, u) == RunFrom(RunFrom(s, a, u), b, u)
    decreases |b|
  {
    if b == [] {
      assert a + b == a;
    } else {
      var n := |b| - 1;
      assert (a + b)[..|a + b| - 1] == a + b[..n];
      RunAppend(s, a, b[..n], u);
    }
  }

  lemma {:induction false} RunFirst(s: System, a: Action, rest: seq<Action>, u: Setup)
    ensures RunFrom(s, [a] + rest, u) == RunFrom(Next(s, a, u), rest, u)
  {
    RunAppend(s, [a], rest, u);
    assert [a][..0] == [];
    assert RunFrom(s, [a][..0], u) == s;
  }

  ghost predicate Quiet<T>(p: Pipe<T>) { p.sender.Idle? && p.first == [] && p.courier.Resting? && p.second == [] }

  /** One announcement on its way through quiet channels. */
  function Passed(p: Pipe<()>): Pipe<()> {
    var n := |p.log|;
    Pipe(p.log + [()], Idle, [], Resting, [], p.delivered + [n], p.wasFull)
  }

  lemma {:induction false} PassesChannels(p: Pipe<()>)
    requires Quiet(p)
    ensures var p1 := Step(p, Enqueue(()), LOCAL_BUFFER);
            var p2 := Step(p1, Pipeline.TrySend, LOCAL_BUFFER);
            var p3 := Step(p2, Pipeline.Take, LOCAL_BUFFER);
            var p4 := Step(p3, Pipeline.Offer, LOCAL_BUFFER);
            p4.second != [] && Step(p4, Read, LOCAL_BUFFER) == Passed(p)
  {}

  /** Runs of known length, as nested steps. */
  lemma {:induction false} RunThree(s: System, a: Action, b: Action, c: Action, u: Setup)
    ensures RunFrom(s, [a, b, c], u) == Next(Next(Next(s, a, u), b, u), c, u)
  {
    assert [a, b, c] == [a] + ([b] + ([c] + []));
    RunFirst(s, a, [b] + ([c] + []), u);
    RunFirst(Next(s, a, u), b, [c] + [], u);
    RunFirst(Next(Next(s, a, u), b, u), c, [], u);
  }

  lemma {:induction false} RunFour(s: System, a: Action, b: Action, c: Action, d: Action, u: Setup)
    ensures RunFrom(s, [a, b, c, d], u) == Next(Next(Next(Next(s, a, u), b, u), c, u), d, u)
  {
    assert [a, b, c, d] == [a] + [b, c, d];
    RunFirst(s, a, [b, c, d], u);
    RunThree(Next(s, a, u), b, c, d, u);
  }

  const SENDING: seq<Action> := [Broadcast, Action.TrySend, Action.Take, Action.Offer]

  function Applying(e: Edge): seq<Action> { [Receive, ReadHub, Reload(e)] }

  /** The announcement reaches the second queue. */
  lemma {:induction false} Sends(s: System, u: Setup)
    requires s.unsent > 0 && Quiet(s.pipe)
    ensures var pipe := RunFrom(s, SENDING, u).pipe;
            && RunFrom(s, SENDING, u) == s.(unsent := s.unsent - 1, pipe := pipe)
            && pipe.second != [] && Step(pipe, Read, LOCAL_BUFFER) == Passed(s.pipe)
  {
    PassesChannels(s.pipe);
    RunFour(s, Broadcast, Action.TrySend, Action.Take, Action.Offer, u);
  }

  lemma {:induction false} Applies(s: System, e: Edge, u: Setup)
    requires s.pipe.second != [] && s.applier.Waits? && Translates(s.hub, e) && u.accepts(e)
    ensures RunFrom(s, Applying(e), u) == s.(pipe := Step(s.pipe, Read, LOCAL_BUFFER), published := e, lost := false)
  {
    RunThree(s, Receive, ReadHub, Reload(e), u);
  }

  /** An announcement that meets no delay makes the edge publish the hub's state. */
  lemma {:induction false} Delivers(s: System, e: Edge, u: Setup)
    requires s.unsent > 0 && Quiet(s.pipe) && s.applier.Waits? && Translates(s.hub, e) && u.accepts(e)
    ensures RunFrom(s, SENDING + Applying(e), u) ==
              s.(unsent := s.unsent - 1, pipe := Passed(s.pipe), published := e, lost := false)
  {
    Sends(s, u);
    Applies(RunFrom(s, SENDING, u), e, u);
    RunAppend(s, SENDING, Applying(e), u);
  }

  /** A method changes the hub after the directory was read, and the commit undoes it. */
  function LosingRun(h: HubState, c: Change, e: Edge): seq<Action> {
    [EditBegins, EditLoads(h), ChangeHub(c)] + ((SENDING + Applying(e)) + ((SENDING + Applying(e)) + [EditCommits(0)]))
  }

  /** Both announcements, that of the subscription and that of the change, and then the commit. */
  lemma {:induction false} DeliversThenCommits(s: System, e: Edge, u: Setup)
    requires s.unsent == 2 && Quiet(s.pipe) && s.applier.Waits? && Translates(s.hub, e) && u.accepts(e)
    ensures RunFrom(s, (SENDING + Applying(e)) + ((SENDING + Applying(e)) + [EditCommits(0)]), u) ==
              Next(s.(unsent := 0, pipe := Passed(Passed(s.pipe)), published := e, lost := false), EditCommits(0), u)
  {
    var d := SENDING + Applying(e);
    var s1 := RunFrom(s, d, u);
    Delivers(s, e, u);
    Delivers(s1, e, u);
    RunAppend(s, d, d + [EditCommits(0)], u);
    RunAppend(s1, d, [EditCommits(0)], u);
    RunFirst(RunFrom(s1, d, u), EditCommits(0), [], u);
    assert [EditCommits(0)] + [] == [EditCommits(0)];
  }

  lemma {:induction false} ChangesAfterLoad(h: HubState, published: Edge, c: Change, u: Setup)
    requires Announced(h, c)
    ensures RunFrom(Start(h, published), [EditBegins, EditLoads(h), ChangeHub(c)], u) ==
              System(Apply(h, c), 2, Empty(), Waits, published, Loaded(h, h), false)
  {
    RunThree(Start(h, published), EditBegins, EditLoads(h), ChangeHub(c), u);
  }

  lemma {:induction false} LosingRunEnds(h: HubState, published: Edge, c: Change, e: Edge, u: Setup)
    requires Announced(h, c) && Apply(h, c) != h && Translates(Apply(h, c), e) && u.accepts(e)
    ensures RunFrom(Start(h, published), LosingRun(h, c, e), u) ==
              System(h, 0, Passed(Passed(Empty())), Waits, e, NoEdit, true)
  {
    var begin := [EditBegins, EditLoads(h), ChangeHub(c)];
    var rest := (SENDING + Applying(e)) + ((SENDING + Applying(e)) + [EditCommits(0)]);
    RunAppend(Start(h, published), begin, rest, u);
    ChangesAfterLoad(h, published, c, u);
    DeliversThenCommits(System(Apply(h, c), 2, Empty(), Waits, published, Loaded(h, h), false), e, u);
  }

  /**
    Every change that an edge can tell from what was there before can be lost: the
    edge keeps what the hub no longer holds.
   */
  lemma {:induction false} UpdateLost(h: HubState, published: Edge, c: Change, e: Edge, u: Setup)
    requires Announced(h, c) && Translates(Apply(h, c), e) && u.accepts(e) && !Translates(h, e)
    ensures var s := RunFrom(Start(h, published), LosingRun(h, c, e), u);
            !Busy(s) && s.applier.Waits? && s.lost && s.hub == h && !Translates(s.hub, s.published)
  {
    LosingRunEnds(h, published, c, e, u);
  }

  // ------------------------------------------------------------------
  // What an edge that has published shows.

  lemma {:induction false} TranslationIsTight(h: HubState, e: Edge)
    requires Translates(h, e) && Compatible(h.tenants)
    ensures Translated(e.tenants, h.tenants)
  {
    forall x | x in h.tenants
      ensures LowerAll(x) in e.tenants && e.tenants[LowerAll(x)] == TranslateTenant(h.tenants[x])
    {
      var y :| y in h.tenants && LowerAll(y) == LowerAll(x) && e.tenants[LowerAll(x)] == TranslateTenant(h.tenants[y]);
    }
    forall k | k in e.tenants
      ensures exists x :: x in h.tenants && LowerAll(x) == k
    {
      var x :| x in h.tenants && LowerAll(x) == k && e.tenants[k] == TranslateTenant(h.tenants[x]);
    }
  }

  /** A translation shows the hub's tenants exactly when they are compatible, and then it is the only one. */
  lemma {:induction false} TranslationShowsIff(h: HubState, e: Edge)
    requires Translates(h, e)
    ensures Shows(e, h.globals, h.tenants) <==> Compatible(h.tenants)
    ensures Compatible(h.tenants) ==> e == Showing(h.globals, h.tenants)
  {
    if Compatible(h.tenants) {
      TranslationIsTight(h, e);
      TranslatedShows(e.tenants, h.tenants);
      OneTranslation(e.tenants, Showing(h.globals, h.tenants).tenants, h.tenants);
    } else if Shows(e, h.globals, h.tenants) {
      ShownIsCompatible(e, h.globals, h.tenants);
    }
  }

  /**
    The program's own setup, end to end: an idle local edge shows exactly what
    its hub holds, as a remote edge that may see every tenant would, whenever
    the hub's tenants are compatible and the registered features accept them.
   */
  lemma {:induction false} LocalShowsHub(
    hub: HubState, published: Edge, actions: seq<Action>, features: map<string, Features.Validator>)
    ensures var s := RunFrom(Start(hub, published), actions, Setup(e => Features.Accepts(features, e)));
            !Busy(s) && s.applier.Waits? && !s.lost && Compatible(s.hub.tenants)
            && Features.Accepts(features, Showing(s.hub.globals, s.hub.tenants)) ==>
              && Shows(s.published, s.hub.globals, Visible(s.hub.tenants, Everyone))
              && Right(s.published, s.hub.globals, s.hub.tenants, Everyone)
  {
    var u := Setup(e => Features.Accepts(features, e));
    var s := RunFrom(Start(hub, published), actions, u);
    LocalConvergence(hub, published, actions, u);
    assert Visible(s.hub.tenants, Everyone) == s.hub.tenants;
    if Compatible(s.hub.tenants) && Features.Accepts(features, Showing(s.hub.globals, s.hub.tenants)) {
      forall e | Translates(s.hub, e)
        ensures u.accepts(e)
      {
        TranslationShowsIff(s.hub, e);
      }
      if Translates(s.hub, s.published) {
        TranslationShowsIff(s.hub, s.published);
        ShowsIsRight(s.published, s.hub.globals, s.hub.tenants, Everyone);
      }
    }
  }
}
