/**
  What happens on one port of the health checker in internal/torpool/health.go,
  as a history of single accesses to shared state.

  A tick's probes are waited for before the next tick, and the ports of the pool
  are distinct, so a port has one probe at a time. Its accesses come in the order
  of checkOne, which is what the phases say. Resets by replacements and ForgetPort
  may come between any two of them.
 */
module ProbeHistory {

  const THRESHOLD: nat := 3

  /**
    A probe takes tracker id; it fails or succeeds. After a failure it finds the
    tracker not dead yet, or dead. With a grace period a dead port's quarantine
    is then found running, expired or missing; a missing one is made, an expired
    one is removed. A success lifts it. Finally a replacement is asked for.
    Others reset a tracker or forget the port.
   */
  datatype Note =
    | Begun(id: nat) | Fail(id: nat) | Ok(id: nat)
    | Spared(id: nat) | Dead(id: nat)
    | Pending(at: int, id: nat) | Expired(at: int, since: int, id: nat) | Missing(at: int, id: nat)
    | Held(at: int, id: nat) | Cleared(id: nat) | Lifted(id: nat) | Asked(id: nat)
    | Reset(id: nat) | Forgotten
  {
    /** Not a step of the port's probe. */
    predicate Foreign() { Reset? || Forgotten? }

    /** Makes or ends a quarantine. */
    predicate MovesQuarantine() { Held? || Cleared? || Lifted? || Forgotten? }
  }

  // ------------------------------------------------------------------
  // What a history says.

  /** Failed probes reported to the tracker since its last success or reset. */
  function Trailing(h: seq<Note>, id: nat): nat {
    if h == [] then 0 else CountedOn(Trailing(h[..|h| - 1], id), h[|h| - 1], id)
  }

  function CountedOn(before: nat, n: Note, id: nat): nat {
    match n
    case Fail(k) => if k == id then before + 1 else before
    case Ok(k) => if k == id then 0 else before
    case Reset(k) => if k == id then 0 else before
    case _ => before
  }

  /** Note j is a failure on the tracker that no success or reset has followed. */
  ghost predicate Trails(h: seq<Note>, id: nat, j: nat) {
    j < |h| && h[j] == Fail(id) && forall k | j < k < |h| :: h[k] != Ok(id) && h[k] != Reset(id)
  }

  lemma {:induction false} TrailsNext(h: seq<Note>, n: Note, id: nat, j: nat)
    ensures Trails(h + [n], id, j) <==>
            (Trails(h, id, j) && n != Ok(id) && n != Reset(id)) || (j == |h| && n == Fail(id))
  {
    if j < |h| && Trails(h + [n], id, j) {
      assert (h + [n])[|h|] == n;
      assert forall k | j < k < |h| :: (h + [n])[k] == h[k];
    }
  }

  ghost function Trail(h: seq<Note>, id: nat): set<nat> { set j: nat | j < |h| && Trails(h, id, j) }

  /** The count is the number of those. */
  lemma {:induction false} TrailingCounts(h: seq<Note>, id: nat)
    ensures Trailing(h, id) == |Trail(h, id)|
    decreases |h|
  {
    if h == [] {
      assert Trail(h, id) == {};
    } else {
      var before, n := h[..|h| - 1], h[|h| - 1];
      assert h == before + [n];
      TrailingCounts(before, id);
      forall j: nat
        ensures j in Trail(h, id) <==>
                (j in Trail(before, id) && n != Ok(id) && n != Reset(id)) || (j == |before| && n == Fail(id))
      {
        TrailsNext(before, n, id, j);
      }
      if n == Ok(id) || n == Reset(id) {
        assert Trail(h, id) == {};
      } else {
        assert Trail(h, id) == Trail(before, id) + if n == Fail(id) then {|before|} else {};
      }
    }
  }

  datatype Standing = Free | HeldSince(at: int)

  /** Whether the port is in quarantine, and since when. */
  function StandingOf(h: seq<Note>): Standing {
    if h == [] then Free else StoodOn(StandingOf(h[..|h| - 1]), h[|h| - 1])
  }

  function StoodOn(before: Standing, n: Note): Standing {
    if n.Held? then HeldSince(n.at) else if n.MovesQuarantine() then Free else before
  }

  /** How far the port's probe has come. */
  datatype Phase =
    | Idle | Probing(id: nat) | Failed(id: nat) | Doomed(id: nat)
    | Ripe(id: nat) | Cleaned(id: nat) | Unheld(id: nat, at: int) | Succeeded(id: nat)

  function PhaseOf(h: seq<Note>): Phase {
    if h == [] then Idle else PhaseAfter(PhaseOf(h[..|h| - 1]), h[|h| - 1])
  }

  function PhaseAfter(before: Phase, n: Note): Phase {
    match n
    case Begun(id) => Probing(id)
    case Fail(id) => Failed(id)
    case Ok(id) => Succeeded(id)
    case Dead(id) => Doomed(id)
    case Expired(_, _, id) => Ripe(id)
    case Missing(at, id) => Unheld(id, at)
    case Cleared(id) => Cleaned(id)
    case Reset(_) => before
    case Forgotten => before
    case _ => Idle
  }

  lemma {:induction false} LastNote(h: seq<Note>, n: Note, id: nat)
    ensures Trailing(h + [n], id) == CountedOn(Trailing(h, id), n, id)
    ensures StandingOf(h + [n]) == StoodOn(StandingOf(h), n)
    ensures PhaseOf(h + [n]) == PhaseAfter(PhaseOf(h), n)
  {
    assert (h + [n])[..|h|] == h;
  }

  // ------------------------------------------------------------------
  // The order of checkOne, and what each read finds.

  /** The phase in which a probe takes this step. */
  predicate InTurn(ph: Phase, n: Note, grace: int) {
    match n
    case Begun(_) => ph.Idle?
    case Fail(id) => ph == Probing(id)
    case Ok(id) => ph == Probing(id)
    case Spared(id) => ph == Failed(id)
    case Dead(id) => ph == Failed(id)
    case Pending(_, id) => ph == Doomed(id) && grace > 0
    case Expired(_, _, id) => ph == Doomed(id) && grace > 0
    case Missing(_, id) => ph == Doomed(id) && grace > 0
    case Held(at, id) => ph == Unheld(id, at)
    case Cleared(id) => ph == Ripe(id)
    case Lifted(id) => ph == Succeeded(id)
    case Asked(id) => ph == if grace > 0 then Cleaned(id) else Doomed(id)
    case Reset(_) => true
    case Forgotten => true
  }

  /** A step in its turn, that has found what was there. */
  predicate Just(h: seq<Note>, n: Note, grace: int) {
    && InTurn(PhaseOf(h), n, grace)
    && match n
       case Spared(id) => Trailing(h, id) < THRESHOLD
       case Dead(id) => Trailing(h, id) >= THRESHOLD
       case Pending(at, _) => StandingOf(h).HeldSince? && at <= StandingOf(h).at + grace
       case Expired(at, since, _) => StandingOf(h) == HeldSince(since) && at > since + grace
       case Missing(_, _) => StandingOf(h).Free?
       case _ => true
  }

  ghost predicate AllJust(h: seq<Note>, grace: int) {
    forall i | 0 <= i < |h| :: Just(h[..i], h[i], grace)
  }

  lemma {:induction false} JustExtends(h: seq<Note>, n: Note, grace: int)
    requires AllJust(h, grace) && Just(h, n, grace)
    ensures AllJust(h + [n], grace)
  {
    var more := h + [n];
    forall i | 0 <= i < |more|
      ensures Just(more[..i], more[i], grace)
    {
      assert more[..i] == h[..i];
      if i < |h| {
        assert Just(h[..i], h[i], grace);
      } else {
        assert h[..i] == h;
      }
    }
  }

  lemma {:induction false} JustBefore(h: seq<Note>, k: nat, grace: int)
    requires AllJust(h, grace) && k <= |h|
    ensures AllJust(h[..k], grace)
  {
    forall i | 0 <= i < k
      ensures Just(h[..k][..i], h[..k][i], grace)
    {
      assert h[..k][..i] == h[..i] && Just(h[..i], h[i], grace);
    }
  }

  // ------------------------------------------------------------------
  // The course of a probe that asks for a replacement.

  /** Where its steps are in the history. */
  datatype Course = Course(begun: nat, failed: nat, dead: nat, expired: nat, cleared: nat)

  /** Strictly between i and j there are only steps of others. */
  ghost predicate OnlyForeign(h: seq<Note>, i: int, j: int) {
    forall m | 0 <= m < |h| && i < m < j :: h[m].Foreign()
  }

  ghost predicate HasBegun(h: seq<Note>, id: nat, c: Course) {
    c.begun < |h| && h[c.begun] == Begun(id)
  }

  ghost predicate HasFailed(h: seq<Note>, id: nat, c: Course) {
    && HasBegun(h, id, c)
    && c.begun < c.failed < |h| && h[c.failed] == Fail(id) && OnlyForeign(h, c.begun, c.failed)
  }

  /** It found three failures in a row. */
  ghost predicate HasDied(h: seq<Note>, id: nat, c: Course) {
    && HasFailed(h, id, c)
    && c.failed < c.dead < |h| && h[c.dead] == Dead(id) && OnlyForeign(h, c.failed, c.dead)
    && Trailing(h[..c.dead], id) >= 3
  }

  /** It found a standing quarantine, older than grace. */
  ghost predicate HasExpired(h: seq<Note>, id: nat, c: Course, grace: int) {
    && HasDied(h, id, c)
    && c.dead < c.expired < |h| && OnlyForeign(h, c.dead, c.expired)
    && h[c.expired].Expired? && h[c.expired].id == id
    && StandingOf(h[..c.expired]) == HeldSince(h[c.expired].since)
    && h[c.expired].at > h[c.expired].since + grace
  }

  ghost predicate HasCleared(h: seq<Note>, id: nat, c: Course, grace: int) {
    && HasExpired(h, id, c, grace)
    && c.expired < c.cleared < |h| && h[c.cleared] == Cleared(id) && OnlyForeign(h, c.expired, c.cleared)
  }

  /** The phase has come about by these steps. */
  ghost predicate CameBy(h: seq<Note>, ph: Phase, c: Course, grace: int) {
    match ph
    case Probing(id) => HasBegun(h, id, c) && OnlyForeign(h, c.begun, |h|)
    case Failed(id) => HasFailed(h, id, c) && OnlyForeign(h, c.failed, |h|)
    case Doomed(id) => HasDied(h, id, c) && OnlyForeign(h, c.dead, |h|)
    case Ripe(id) => HasExpired(h, id, c, grace) && OnlyForeign(h, c.expired, |h|)
    case Cleaned(id) => HasCleared(h, id, c, grace) && OnlyForeign(h, c.cleared, |h|)
    case _ => true
  }

  /** What has been found stays found. */
  lemma {:induction false} StaysFound(h: seq<Note>, n: Note, id: nat, c: Course, grace: int)
    ensures HasBegun(h, id, c) ==> HasBegun(h + [n], id, c)
    ensures HasFailed(h, id, c) ==> HasFailed(h + [n], id, c)
    ensures HasDied(h, id, c) ==> HasDied(h + [n], id, c)
    ensures HasExpired(h, id, c, grace) ==> HasExpired(h + [n], id, c, grace)
    ensures HasCleared(h, id, c, grace) ==> HasCleared(h + [n], id, c, grace)
  {
    assert c.dead <= |h| ==> (h + [n])[..c.dead] == h[..c.dead];
    assert c.expired <= |h| ==> (h + [n])[..c.expired] == h[..c.expired];
  }

  /** One more step of the probe itself. */
  lemma {:induction false} CourseGrows(h: seq<Note>, n: Note, c: Course, grace: int) returns (c': Course)
    requires CameBy(h, PhaseOf(h), c, grace) && Just(h, n, grace) && !n.Foreign()
    ensures CameBy(h + [n], PhaseAfter(PhaseOf(h), n), c', grace)
  {
    c' := match n
          case Begun(_) => c.(begun := |h|)
          case Fail(_) => c.(failed := |h|)
          case Dead(_) => c.(dead := |h|)
          case Expired(_, _, _) => c.(expired := |h|)
          case Cleared(_) => c.(cleared := |h|)
          case _ => c;
    if !n.Begun? {
      StaysFound(h, n, n.id, c, grace);
    }
    assert (h + [n])[..|h|] == h;
  }

  lemma {:induction false} CourseStays(h: seq<Note>, n: Note, c: Course, grace: int)
    requires CameBy(h, PhaseOf(h), c, grace) && n.Foreign()
    ensures CameBy(h + [n], PhaseOf(h), c, grace)
  {
    if !PhaseOf(h).Idle? {
      StaysFound(h, n, PhaseOf(h).id, c, grace);
    }
  }

  lemma {:induction false} CourseNext(h: seq<Note>, n: Note, c: Course, grace: int) returns (c': Course)
    requires CameBy(h, PhaseOf(h), c, grace) == true && Just(h, n, grace)
    ensures CameBy(h + [n], PhaseOf(h + [n]), c', grace) == true
  {
    LastNote(h, n, 0);
    c' := c;
    if n.Foreign() {
      CourseStays(h, n, c, grace);
    } else {
      c' := CourseGrows(h, n, c, grace);
    }
  }

  lemma {:induction false} CourseOf(h: seq<Note>, grace: int) returns (c: Course)
    requires AllJust(h, grace)
    ensures CameBy(h, PhaseOf(h), c, grace) == true
    decreases |h|
  {
    c := Course(0, 0, 0, 0, 0);
    if h != [] {
      var n := |h| - 1;
      JustBefore(h, n, grace);
      c := CourseOf(h[..n], grace);
      assert h == h[..n] + [h[n]] && Just(h[..n], h[n], grace);
      c := CourseNext(h[..n], h[n], c, grace);
    }
  }

  // ------------------------------------------------------------------
  // What became of the count, and of the quarantine.

  /** Where nothing was counted, only a reset can have changed the count. */
  lemma {:induction false} CountSince(h: seq<Note>, d: nat, id: nat)
    requires d <= |h| && forall j | d <= j < |h| :: !h[j].Fail? && !h[j].Ok?
    ensures Trailing(h, id) == if exists j | d <= j < |h| :: h[j] == Reset(id) then 0 else Trailing(h[..d], id)
    decreases |h|
  {
    if d == |h| {
      assert h[..d] == h;
    } else {
      var before, n := h[..|h| - 1], h[|h| - 1];
      assert forall j | d <= j < |before| :: before[j] == h[j];
      CountSince(before, d, id);
      assert before[..d] == h[..d];
      if j :| d <= j < |before| && before[j] == Reset(id) {
        assert h[j] == Reset(id);
      }
    }
  }

  /** The quarantine was made at q and not moved since; a success since then has not come to lifting it yet. */
  ghost predicate StandsSince(h: seq<Note>, q: nat) {
    && q < |h| && h[q].Held? && StandingOf(h) == HeldSince(h[q].at)
    && (forall j | q < j < |h| :: !h[j].MovesQuarantine())
    && ((exists j | q < j < |h| :: h[j].Ok?) ==> PhaseOf(h).Succeeded?)
  }

  lemma {:induction false} StandsOn(h: seq<Note>, n: Note, q: nat, grace: int)
    requires StandsSince(h, q) && Just(h, n, grace) && !n.MovesQuarantine()
    ensures StandsSince(h + [n], q)
  {
    LastNote(h, n, 0);
    var more := h + [n];
    if j :| q < j < |more| && more[j].Ok? {
      assert j < |h| ==> h[j].Ok?;
    }
  }

  lemma {:induction false} StandsNow(h: seq<Note>, n: Note)
    requires n.Held?
    ensures StandsSince(h + [n], |h|)
  {
    LastNote(h, n, 0);
  }

  lemma {:induction false} QuarantineStands(h: seq<Note>, grace: int) returns (q: nat)
    requires AllJust(h, grace) && StandingOf(h).HeldSince?
    ensures StandsSince(h, q) == true
    decreases |h|
  {
    var n := |h| - 1;
    assert h == h[..n] + [h[n]] && Just(h[..n], h[n], grace);
    if h[n].Held? {
      q := n;
      StandsNow(h[..n], h[n]);
    } else {
      JustBefore(h, n, grace);
      q := QuarantineStands(h[..n], grace);
      StandsOn(h[..n], h[n], q, grace);
    }
  }

  // ------------------------------------------------------------------
  // The theorem.

  /** The asking probe's own steps, in order, with only steps of others between them. */
  ghost predicate OwnSteps(h: seq<Note>, k: nat, c: Course, grace: int)
    requires k < |h| && h[k].Asked?
  {
    if grace > 0 then HasCleared(h[..k], h[k].id, c, grace) && OnlyForeign(h[..k], c.cleared, k)
    else HasDied(h[..k], h[k].id, c) && OnlyForeign(h[..k], c.dead, k)
  }

  /** When it asks, its tracker still counts three failures exactly if nobody has reset it since it was found dead. */
  ghost predicate CountsUnlessReset(h: seq<Note>, k: nat, c: Course)
    requires k < |h| && h[k].Asked?
  {
    Trailing(h[..k], h[k].id) >= 3 <==> forall j | c.dead < j < k :: h[j] != Reset(h[k].id)
  }

  /** The quarantine it found expired was made at q, and no probe of the port has succeeded since. */
  ghost predicate NoSuccessSince(h: seq<Note>, k: nat, c: Course, q: nat)
    requires k < |h| && c.expired < k && h[c.expired].Expired?
  {
    && q < c.expired && h[q].Held? && h[q].at == h[c.expired].since
    && (forall j | q < j < c.expired :: !h[j].MovesQuarantine())
    && (forall j | q < j < k :: !h[j].Ok?)
  }

  ghost predicate Founded(h: seq<Note>, k: nat, grace: int)
    requires k < |h| && h[k].Asked?
  {
    exists c: Course ::
      && OwnSteps(h, k, c, grace) && CountsUnlessReset(h, k, c)
      && (grace > 0 ==> exists q: nat :: NoSuccessSince(h, k, c, q))
  }

  ghost predicate EveryAskIsFounded(h: seq<Note>, grace: int) {
    forall k | 0 <= k < |h| && h[k].Asked? :: Founded(h, k, grace)
  }

  lemma {:induction false} CountAtAsk(h: seq<Note>, k: nat, c: Course, grace: int)
    requires k < |h| && h[k].Asked? && OwnSteps(h, k, c, grace)
    ensures CountsUnlessReset(h, k, c)
  {
    var g := h[..k];
    assert forall j | c.dead <= j < k :: !g[j].Fail? && !g[j].Ok?;
    CountSince(g, c.dead, h[k].id);
    assert forall j | c.dead <= j < k :: g[j] == h[j];
  }

  /** From finding the quarantine expired to asking no probe succeeds. */
  lemma {:induction false} ExpiredThenAsked(h: seq<Note>, k: nat, c: Course, grace: int)
    requires k < |h| && h[k].Asked? && grace > 0 && OwnSteps(h, k, c, grace)
    ensures c.expired < k && h[c.expired].Expired? && forall j | c.expired <= j < k :: !h[j].Ok?
    ensures StandingOf(h[..c.expired]) == HeldSince(h[c.expired].since)
  {
    var g := h[..k];
    assert g[..c.expired] == h[..c.expired];
    forall j | c.expired <= j < k
      ensures !h[j].Ok?
    {
      assert g[j] == h[j];
    }
  }

  lemma {:induction false} SinceHeld(h: seq<Note>, x: nat, q: nat)
    requires x < |h| && StandsSince(h[..x], q) && PhaseOf(h[..x]).Doomed?
    ensures q < x && h[q].Held? && StandingOf(h[..x]) == HeldSince(h[q].at)
    ensures forall j | q < j < x :: !h[j].MovesQuarantine() && !h[j].Ok?
  {
    var g := h[..x];
    assert forall j | q < j < x :: !g[j].Ok?;
    forall j | q < j < x
      ensures !h[j].MovesQuarantine() && !h[j].Ok?
    {
      assert g[j] == h[j];
    }
  }

  lemma {:induction false} QuarantineAtAsk(h: seq<Note>, k: nat, c: Course, grace: int) returns (q: nat)
    requires AllJust(h, grace) && k < |h| && h[k].Asked? && grace > 0 && OwnSteps(h, k, c, grace) == true
    ensures c.expired < k && h[c.expired].Expired? && NoSuccessSince(h, k, c, q)
  {
    ExpiredThenAsked(h, k, c, grace);
    var x := c.expired;
    assert Just(h[..x], h[x], grace);
    JustBefore(h, x, grace);
    q := QuarantineStands(h[..x], grace);
    SinceHeld(h, x, q);
  }

  /** Whatever comes between the steps of a probe, no replacement is asked for without its own cause. */
  lemma {:induction false} JustIsFounded(h: seq<Note>, grace: int)
    requires AllJust(h, grace)
    ensures EveryAskIsFounded(h, grace)
  {
    forall k: nat | k < |h| && h[k].Asked?
      ensures Founded(h, k, grace)
    {
      assert Just(h[..k], h[k], grace);
      JustBefore(h, k, grace);
      var c := CourseOf(h[..k], grace);
      assert OwnSteps(h, k, c, grace);
      CountAtAsk(h, k, c, grace);
      if grace > 0 {
        var q := QuarantineAtAsk(h, k, c, grace);
      }
    }
  }
}
