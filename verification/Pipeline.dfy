/**
  The two bounded drop-oldest queues between the hub and one subscriber: the
  32-event channel of subState in internal/hub/registry.go, its drain goroutine,
  and the channel behind Subscriber.OnEvent (64 events in internal/hub/stream.go,
  8 in internal/proxy/snapshot.go).

  Every channel operation is one step, so steps of the sender, the drain
  goroutine and the reader interleave freely. An event is named by its position
  in the order of enqueue calls.
 */
module Pipeline {

  const SUB_BUFFER: nat := 32
  const STREAM_BUFFER: nat := 64
  const LOCAL_BUFFER: nat := 8

  /** enqueue, under its mutex: about to send, or having found the channel full. */
  datatype Sender = Idle | Trying(ev: nat) | Dropping(ev: nat)

  /** The drain goroutine: between events, or inside OnEvent before its three selects. */
  datatype Courier = Resting | Offering(ev: nat) | Clearing(ev: nat) | Reoffering(ev: nat)

  datatype Pipe<+T> = Pipe(
    log: seq<T>,
    sender: Sender,
    first: seq<nat>,
    courier: Courier,
    second: seq<nat>,
    delivered: seq<nat>,
    wasFull: bool)

  function Empty<T>(): Pipe<T> { Pipe([], Idle, [], Resting, [], [], false) }

  datatype Action<+T> =
    | Enqueue(ev: T) | TrySend | DropOldest
    | Take | Offer | ClearOldest | Reoffer
    | Read

  function Step<T>(p: Pipe<T>, a: Action<T>, cap: nat): Pipe<T> {
    match a
    case Enqueue(ev) =>
      if p.sender.Idle? then p.(log := p.log + [ev], sender := Trying(|p.log|)) else p
    case TrySend =>
      if !p.sender.Trying? then p
      else if |p.first| < SUB_BUFFER then p.(first := p.first + [p.sender.ev], sender := Idle)
      else p.(sender := Dropping(p.sender.ev), wasFull := true)
    case DropOldest =>
      if !p.sender.Dropping? then p
      else p.(first := if p.first == [] then [] else p.first[1..], sender := Trying(p.sender.ev))
    case Take =>
      if p.courier.Resting? && p.first != [] then p.(first := p.first[1..], courier := Offering(p.first[0])) else p
    case Offer =>
      if !p.courier.Offering? then p
      else if |p.second| < cap then p.(second := p.second + [p.courier.ev], courier := Resting)
      else p.(courier := Clearing(p.courier.ev), wasFull := true)
    case ClearOldest =>
      if !p.courier.Clearing? then p
      else p.(second := if p.second == [] then [] else p.second[1..], courier := Reoffering(p.courier.ev))
    case Reoffer =>
      if !p.courier.Reoffering? then p
      else if |p.second| < cap then p.(second := p.second + [p.courier.ev], courier := Resting)
      else p.(courier := Resting)
    case Read =>
      if p.second != [] then p.(second := p.second[1..], delivered := p.delivered + [p.second[0]]) else p
  }

  function Run<T>(actions: seq<Action<T>>, cap: nat): Pipe<T> {
    if actions == [] then Empty()
    else Step(Run(actions[..|actions| - 1], cap), actions[|actions| - 1], cap)
  }

  function SenderHolds(s: Sender): seq<nat> { if s.Idle? then [] else [s.ev] }
  function CourierHolds(c: Courier): seq<nat> { if c.Resting? then [] else [c.ev] }

  /** Everything that has not been delivered yet, oldest first. */
  function Waiting<T>(p: Pipe<T>): seq<nat> {
    p.second + (CourierHolds(p.courier) + (p.first + SenderHolds(p.sender)))
  }

  /** Everything that has not been dropped, oldest first. */
  function Flow<T>(p: Pipe<T>): seq<nat> { p.delivered + Waiting(p) }

  ghost predicate Increasing(s: seq<nat>) { forall i, j | 0 <= i < j < |s| :: s[i] < s[j] }

  function Count(n: nat): seq<nat> { seq(n, i => i) }

  /** s is an in-order selection of the n enqueued events that ends with the newest. */
  ghost predicate Selects(s: seq<nat>, n: nat) {
    && Increasing(s)
    && (n > 0 ==> s != [] && s[|s| - 1] == n - 1)
    && (n == 0 ==> s == [])
  }

  ghost predicate Bounds<T>(p: Pipe<T>, cap: nat) {
    && |p.first| <= SUB_BUFFER && |p.second| <= cap
    && (p.courier.Reoffering? ==> |p.second| < cap)
    && (!p.wasFull ==> !p.sender.Dropping? && (p.courier.Resting? || p.courier.Offering?))
  }

  ghost predicate Inv<T>(p: Pipe<T>, cap: nat) {
    Bounds(p, cap) && Keeps(Flow(p), |p.log|, p.wasFull)
  }

  /** What flows is a selection of the events, and all of them unless a queue was full. */
  ghost predicate Keeps(flow: seq<nat>, n: nat, wasFull: bool) {
    Selects(flow, n) && (!wasFull ==> flow == Count(n))
  }

  lemma {:induction false} InvHolds<T>(p: Pipe<T>, cap: nat)
    requires Inv(p, cap)
    ensures Bounds(p, cap) && Keeps(Flow(p), |p.log|, p.wasFull)
  {}

  lemma {:induction false} InvFrom<T>(p: Pipe<T>, cap: nat)
    requires Bounds(p, cap) && Keeps(Flow(p), |p.log|, p.wasFull)
    ensures Inv(p, cap)
  {}

  lemma {:induction false} DropKeepsSelection(a: seq<nat>, x: nat, b: seq<nat>, n: nat)
    requires Selects(a + [x] + b, n) && b != []
    ensures Selects(a + b, n)
  {
    var s := a + [x] + b;
    var r := a + b;
    assert forall i | 0 <= i < |r| :: r[i] == s[if i < |a| then i else i + 1];
  }

  lemma {:induction false} EnqueueKeepsSelection(s: seq<nat>, n: nat)
    requires Selects(s, n)
    ensures Selects(s + [n], n + 1)
    ensures s == Count(n) ==> s + [n] == Count(n + 1)
  {
    assert n > 0 ==> forall i | 0 <= i < |s| :: s[i] <= s[|s| - 1];
  }

  lemma {:induction false} StepKeepsBounds<T>(p: Pipe<T>, a: Action<T>, cap: nat)
    requires Bounds(p, cap) && cap > 0
    ensures Bounds(Step(p, a, cap), cap)
    ensures p.wasFull ==> Step(p, a, cap).wasFull
  {}

  lemma {:induction false} Regroup<X>(a: seq<X>, x: X, b: seq<X>)
    ensures a + ([x] + b) == (a + [x]) + b
  {}

  lemma {:induction false} HeadTail<X>(s: seq<X>, rest: seq<X>)
    requires s != []
    ensures s + rest == [s[0]] + (s[1..] + rest)
  {}

  lemma {:induction false} SendKeepsWaiting<T>(p: Pipe<T>, cap: nat)
    ensures Flow(Step(p, TrySend, cap)) == Flow(p)
  {
    if p.sender.Trying? && |p.first| < SUB_BUFFER {
      assert p.first + [p.sender.ev] + [] == p.first + [p.sender.ev];
    }
  }

  lemma {:induction false} TakeKeepsWaiting<T>(p: Pipe<T>, cap: nat)
    ensures Flow(Step(p, Take, cap)) == Flow(p)
  {
    if p.courier.Resting? && p.first != [] {
      HeadTail(p.first, SenderHolds(p.sender));
      var tail := p.first + SenderHolds(p.sender);
      assert [] + tail == tail;
    }
  }

  lemma {:induction false} OfferKeepsWaiting<T>(p: Pipe<T>, a: Action<T>, cap: nat)
    requires (a.Offer? || a.Reoffer?) && (p.courier.Reoffering? ==> |p.second| < cap)
    ensures Flow(Step(p, a, cap)) == Flow(p)
  {
    var tail := p.first + SenderHolds(p.sender);
    if !p.courier.Resting? {
      Regroup(p.second, p.courier.ev, tail);
      assert [] + tail == tail;
    }
  }

  lemma {:induction false} ReadKeepsFlow<T>(p: Pipe<T>, cap: nat)
    ensures Flow(Step(p, Read, cap)) == Flow(p)
  {
    if p.second != [] {
      var tail := CourierHolds(p.courier) + (p.first + SenderHolds(p.sender));
      HeadTail(p.second, tail);
      Regroup(p.delivered, p.second[0], p.second[1..] + tail);
    }
  }

  /** Sending, taking, offering and reading only move an event along. */
  lemma {:induction false} MoveKeepsFlow<T>(p: Pipe<T>, a: Action<T>, cap: nat)
    requires Bounds(p, cap)
    requires a.TrySend? || a.Take? || a.Offer? || a.Reoffer? || a.Read?
    ensures Flow(Step(p, a, cap)) == Flow(p)
  {
    match a
    case TrySend => SendKeepsWaiting(p, cap);
    case Take => TakeKeepsWaiting(p, cap);
    case Read => ReadKeepsFlow(p, cap);
    case _ => OfferKeepsWaiting(p, a, cap);
  }

  /** Dropping the oldest queued event keeps the newest: the sender is holding it. */
  lemma {:induction false} DropKeepsFlow<T>(p: Pipe<T>, cap: nat)
    requires p.sender.Dropping? && Selects(Flow(p), |p.log|)
    ensures Selects(Flow(Step(p, DropOldest, cap)), |p.log|)
  {
    var p' := Step(p, DropOldest, cap);
    if p.first != [] {
      var before := p.delivered + (p.second + CourierHolds(p.courier));
      var after := p.first[1..] + SenderHolds(p.sender);
      HeadTail(p.first, SenderHolds(p.sender));
      assert Flow(p) == before + [p.first[0]] + after;
      assert Flow(p') == before + after;
      DropKeepsSelection(before, p.first[0], after, |p.log|);
    }
  }

  /** Clearing a place in the second queue keeps the newest: the drain goroutine is holding an event behind it. */
  lemma {:induction false} ClearKeepsFlow<T>(p: Pipe<T>, cap: nat)
    requires p.courier.Clearing? && Selects(Flow(p), |p.log|)
    ensures Selects(Flow(Step(p, ClearOldest, cap)), |p.log|)
  {
    var p' := Step(p, ClearOldest, cap);
    if p.second != [] {
      var tail := CourierHolds(p.courier) + (p.first + SenderHolds(p.sender));
      HeadTail(p.second, tail);
      Regroup(p.delivered, p.second[0], p.second[1..] + tail);
      DropKeepsSelection(p.delivered, p.second[0], p.second[1..] + tail, |p.log|);
    }
  }

  lemma {:induction false} EnqueueKeepsFlow<T>(p: Pipe<T>, ev: T, cap: nat)
    requires Selects(Flow(p), |p.log|) && (!p.wasFull ==> Flow(p) == Count(|p.log|))
    ensures var p' := Step(p, Enqueue(ev), cap);
            Selects(Flow(p'), |p'.log|) && (!p.wasFull ==> Flow(p') == Count(|p'.log|))
  {
    var p' := Step(p, Enqueue(ev), cap);
    if p.sender.Idle? {
      EnqueueKeepsSelection(Flow(p), |p.log|);
      assert Flow(p') == Flow(p) + [|p.log|];
    }
  }

  /** The flow after one step. */
  lemma {:induction false} StepKeepsFlow<T>(p: Pipe<T>, a: Action<T>, cap: nat)
    requires Bounds(p, cap) && Keeps(Flow(p), |p.log|, p.wasFull)
    ensures var p' := Step(p, a, cap); Keeps(Flow(p'), |p'.log|, p'.wasFull)
  {
    var p' := Step(p, a, cap);
    if a.Enqueue? {
      EnqueueKeepsFlow(p, a.ev, cap);
      assert p'.wasFull == p.wasFull;
    } else if a.DropOldest? {
      if p.sender.Dropping? {
        DropKeepsFlow(p, cap);
        assert p.wasFull && p'.wasFull && p'.log == p.log;
      } else {
        assert p' == p;
      }
    } else if a.ClearOldest? {
      if p.courier.Clearing? {
        ClearKeepsFlow(p, cap);
        assert p.wasFull && p'.wasFull && p'.log == p.log;
      } else {
        assert p' == p;
      }
    } else {
      MoveKeepsFlow(p, a, cap);
      assert p'.log == p.log && (p.wasFull ==> p'.wasFull);
    }
  }

  /** Every step keeps the invariant. */
  lemma {:induction false} StepKeepsInv<T>(p: Pipe<T>, a: Action<T>, cap: nat)
    requires Inv(p, cap) && cap > 0
    ensures Inv(Step(p, a, cap), cap)
  {
    InvHolds(p, cap);
    StepKeepsBounds(p, a, cap);
    StepKeepsFlow(p, a, cap);
    InvFrom(Step(p, a, cap), cap);
  }

  lemma {:induction false} EveryRunKeepsInv<T>(actions: seq<Action<T>>, cap: nat)
    requires cap > 0
    ensures Inv(Run(actions, cap), cap)
    decreases actions
  {
    if actions == [] {
      assert Flow(Empty<T>()) == [] && Count(0) == [];
    } else {
      EveryRunKeepsInv(actions[..|actions| - 1], cap);
      StepKeepsInv(Run(actions[..|actions| - 1], cap), actions[|actions| - 1], cap);
    }
  }

  /**
    Over every interleaving: what has been delivered, followed by what is still
    under way, is an in-order selection of the enqueued events that ends with
    the newest one; the queues stay within their bounds; and nothing is missing
    unless a queue was found full.
   */
  lemma {:induction false} EveryRunSelects<T>(actions: seq<Action<T>>, cap: nat)
    requires cap > 0
    ensures var p := Run(actions, cap);
            && Selects(p.delivered + Waiting(p), |p.log|)
            && |p.first| <= 32 && |p.second| <= cap
            && (!p.wasFull ==> p.delivered + Waiting(p) == Count(|p.log|))
  {
    EveryRunKeepsInv(actions, cap);
  }

  /** Step i finds a queue full: 32 events behind the sender, or cap behind the courier. */
  ghost predicate FindsFull<T>(actions: seq<Action<T>>, cap: nat, i: nat)
    requires i < |actions|
  {
    var p := Run(actions[..i], cap);
    || (actions[i].TrySend? && p.sender.Trying? && |p.first| >= 32)
    || (actions[i].Offer? && p.courier.Offering? && |p.second| >= cap)
  }

  lemma {:induction false} StepFindsFull<T>(p: Pipe<T>, a: Action<T>, cap: nat)
    ensures Step(p, a, cap).wasFull <==>
            || p.wasFull
            || (a.TrySend? && p.sender.Trying? && |p.first| >= 32)
            || (a.Offer? && p.courier.Offering? && |p.second| >= cap)
  {}

  /** Nothing else counts as a full queue. */
  lemma {:induction false} WasFullIff<T>(actions: seq<Action<T>>, cap: nat)
    ensures Run(actions, cap).wasFull <==> exists i: nat | i < |actions| :: FindsFull(actions, cap, i)
    decreases |actions|
  {
    if actions != [] {
      var n := |actions| - 1;
      WasFullIff(actions[..n], cap);
      StepFindsFull(Run(actions[..n], cap), actions[n], cap);
      forall i: nat | i < n
        ensures FindsFull(actions, cap, i) == FindsFull(actions[..n], cap, i)
      {
        assert actions[..n][..i] == actions[..i];
      }
      assert Run(actions, cap).wasFull <==> Run(actions[..n], cap).wasFull || FindsFull(actions, cap, n);
    }
  }

  // ------------------------------------------------------------------
  // The retry loop of enqueue.

  /** How many steps of its own the sender still needs at most. */
  function SendRank<T>(p: Pipe<T>): nat {
    match p.sender
    case Idle => 0
    case Trying(_) => if |p.first| < SUB_BUFFER then 1 else 3
    case Dropping(_) => 2
  }

  /** Each turn of the loop makes progress, and no step of another goroutine sets it back. */
  lemma {:induction false} EnqueueTerminates<T>(p: Pipe<T>, a: Action<T>, cap: nat)
    requires Inv(p, cap) && !p.sender.Idle?
    ensures SendRank(p) <= 3
    ensures SendRank(Step(p, a, cap)) <= SendRank(p)
    ensures (p.sender.Trying? && a.TrySend?) || (p.sender.Dropping? && a.DropOldest?) ==>
              SendRank(Step(p, a, cap)) < SendRank(p)
    ensures SendRank(Step(p, a, cap)) == 0 <==> Step(p, a, cap).sender.Idle?
    ensures Step(p, a, cap).sender.Idle? ==> p.sender.ev in Step(p, a, cap).first
  {}

  /** OnEvent never loses the event it was called with: its second try always finds room. */
  lemma {:induction false} ReofferSucceeds<T>(p: Pipe<T>, cap: nat)
    requires Inv(p, cap) && p.courier.Reoffering?
    ensures p.courier.ev in Step(p, Reoffer, cap).second
  {
    var p' := Step(p, Reoffer, cap);
    assert p'.second[|p.second|] == p.courier.ev;
  }
}
