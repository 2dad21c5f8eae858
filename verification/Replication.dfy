/**
  Remote mode end to end: the hub's stream for one subscriber goes through the
  two queues, the node filter and the text of the SSE connection, and is folded
  into whatever the edge held before.
 */
module Replication {
  import opened Config
  import opened EdgeFold
  import opened Pipeline
  import opened Sse
  import Hub
  import Broadcasts

  /** The events a run of the two queues has delivered, in delivery order. */
  ghost function Delivered(actions: seq<Pipeline.Action<Event>>, cap: nat): seq<Event>
    requires cap > 0
  {
    var p := Run(actions, cap);
    EveryRunSelects(actions, cap);
    assert forall i | 0 <= i < |p.delivered| :: (p.delivered + Waiting(p))[i] == p.delivered[i];
    seq(|p.delivered|, i requires 0 <= i < |p.delivered| => p.log[p.delivered[i]])
  }

  /** A drained pipeline in which no queue was ever found full has delivered everything in order. */
  lemma {:induction false} DrainedDeliversAll(actions: seq<Pipeline.Action<Event>>, cap: nat)
    requires cap > 0
    requires !Run(actions, cap).wasFull && Waiting(Run(actions, cap)) == []
    ensures Delivered(actions, cap) == Run(actions, cap).log
  {
    EveryRunSelects(actions, cap);
    var p := Run(actions, cap);
    assert p.delivered + [] == p.delivered;
    assert p.delivered == Count(|p.log|);
  }

  /**
    Remote convergence. If the stream of a subscriber mirrors the hub (which
    Hub.Registry keeps for every subscriber), the queues did not overflow and
    are drained, and the connection carries the filtered events with any
    keepalives between them, then the edge shows exactly the hub's globals and
    the tenants its node may see, whatever it showed before.
   */
  lemma {:induction false} RemoteConvergence(
    stream: seq<Event>, g: GlobalsConf, tenants: map<string, TenantConf>,
    actions: seq<Pipeline.Action<Event>>, caller: Caller,
    codec: Codec<Event>, items: seq<Item<Event>>, k: Ending, prior: Edge)
    requires Mirrors(stream, g, tenants)
    requires Run(actions, STREAM_BUFFER).log == stream
    requires !Run(actions, STREAM_BUFFER).wasFull && Waiting(Run(actions, STREAM_BUFFER)) == []
    requires AllPrintable(codec, items) && Sent(items) == FilterAll(Delivered(actions, STREAM_BUFFER), caller)
    ensures Shows(Fold(prior, ReadText(SseReader(codec), Print(codec, items), k)), g, Visible(tenants, caller))
    ensures Right(Fold(prior, ReadText(SseReader(codec), Print(codec, items), k)), g, tenants, caller)
  {
    DrainedDeliversAll(actions, STREAM_BUFFER);
    RoundTrip(codec, items, k);
    ShowsIsRight(Fold(prior, ReadText(SseReader(codec), Print(codec, items), k)), g, tenants, caller);
  }

  /**
    The same for every subscriber of every reachable hub that is in step, which
    by the contracts of Registry means: the state of its snapshot and of every
    upsert since was compatible, and no delete took another tenant's entry.
   */
  lemma {:induction false} EverySubscriberConverges(
    hub: Hub.Registry, id: nat,
    actions: seq<Pipeline.Action<Event>>, caller: Caller,
    codec: Codec<Event>, items: seq<Item<Event>>, k: Ending, prior: Edge)
    requires hub.Valid() && id in hub.inStep && id in hub.subs
    requires Run(actions, STREAM_BUFFER).log == hub.subs[id]
    requires !Run(actions, STREAM_BUFFER).wasFull && Waiting(Run(actions, STREAM_BUFFER)) == []
    requires AllPrintable(codec, items) && Sent(items) == FilterAll(Delivered(actions, STREAM_BUFFER), caller)
    ensures var read := ReadText(SseReader(codec), Print(codec, items), k);
            && Shows(Fold(prior, read), hub.globals, Visible(hub.tenants, caller))
            && Right(Fold(prior, read), hub.globals, hub.tenants, caller)
  {
    assert Hub.AllMirror(hub.subs, hub.inStep, hub.globals, hub.tenants);
    RemoteConvergence(hub.subs[id], hub.globals, hub.tenants, actions, caller, codec, items, k, prior);
  }

  /** And for every subscriber of a hub that never had a tenant called other than in lower case. */
  lemma {:induction false} LowerCaseConverges(
    hub: Hub.Registry, id: nat,
    actions: seq<Pipeline.Action<Event>>, caller: Caller,
    codec: Codec<Event>, items: seq<Item<Event>>, k: Ending, prior: Edge)
    requires hub.Valid() && hub.lower && id in hub.subs
    requires Run(actions, STREAM_BUFFER).log == hub.subs[id]
    requires !Run(actions, STREAM_BUFFER).wasFull && Waiting(Run(actions, STREAM_BUFFER)) == []
    requires AllPrintable(codec, items) && Sent(items) == FilterAll(Delivered(actions, STREAM_BUFFER), caller)
    ensures var read := ReadText(SseReader(codec), Print(codec, items), k);
            && Shows(Fold(prior, read), hub.globals, Visible(hub.tenants, caller))
            && Right(Fold(prior, read), hub.globals, hub.tenants, caller)
  {
    Hub.AllInStep(hub.naming, hub.View());
    EverySubscriberConverges(hub, id, actions, caller, codec, items, k, prior);
  }

  /**
    And when the events are enqueued after the lock is released: the stream may
    be in any order in which no event has overtaken another about the same entry
    or the globals (Broadcasts.OrderlyRunsAgree says which runs keep to that).
   */
  lemma {:induction false} ReorderedConverges(
    hub: Hub.Registry, id: nat, stream: seq<Event>,
    actions: seq<Pipeline.Action<Event>>, caller: Caller,
    codec: Codec<Event>, items: seq<Item<Event>>, k: Ending, prior: Edge)
    requires hub.Valid() && id in hub.inStep && id in hub.subs && Broadcasts.SameOrder(hub.subs[id], stream)
    requires Run(actions, STREAM_BUFFER).log == stream
    requires !Run(actions, STREAM_BUFFER).wasFull && Waiting(Run(actions, STREAM_BUFFER)) == []
    requires AllPrintable(codec, items) && Sent(items) == FilterAll(Delivered(actions, STREAM_BUFFER), caller)
    ensures var read := ReadText(SseReader(codec), Print(codec, items), k);
            && Shows(Fold(prior, read), hub.globals, Visible(hub.tenants, caller))
            && Right(Fold(prior, read), hub.globals, hub.tenants, caller)
  {
    assert Hub.AllMirror(hub.subs, hub.inStep, hub.globals, hub.tenants);
    Broadcasts.MirrorsReordered(hub.subs[id], stream, hub.globals, hub.tenants);
    RemoteConvergence(stream, hub.globals, hub.tenants, actions, caller, codec, items, k, prior);
  }

  // ------------------------------------------------------------------
  // A connection that ends anywhere.

  /** The edge's view of the wire: type names, and what is made of data that does not parse. */
  ghost predicate EdgeCodec(c: Codec<Event>) {
    (forall ev :: c.eventType(ev) == TypeName(ev)) && forall t, data :: c.synthesize(t, data) == Malformed(t)
  }

  /** An event of the hub, no proper fragment of whose JSON is JSON. */
  ghost predicate Whole(c: Codec<Event>, ev: Event) {
    && !ev.Malformed? && TrimRight(TypeName(ev)) != ""
    && forall m: nat | 0 < m < |c.marshal(ev)| :: c.unmarshal(c.marshal(ev)[..m]).None?
  }

  ghost predicate AllWhole(c: Codec<Event>, items: seq<Item<Event>>) {
    forall i | 0 <= i < |items| && items[i].Send? :: Whole(c, items[i].ev)
  }

  lemma {:induction false} WholeFragmentsFail(c: Codec<Event>, items: seq<Item<Event>>)
    requires EdgeCodec(c) && AllWhole(c, items)
    ensures FragmentsFail(c, items)
  {
    forall i, m: nat | 0 <= i < |items| && items[i].Send? && 0 < m < |c.marshal(items[i].ev)|
      ensures FragmentFails(c, items[i].ev, m)
    {
      assert Whole(c, items[i].ev);
    }
  }

  /** The cut leaves a piece of a globals update. */
  ghost predicate BreaksGlobals(c: Codec<Event>, items: seq<Item<Event>>, n: nat) {
    Fragment(c, items, n).Some? && ShownType(c, Fragment(c, items, n).value.0) == GLOBALS_UPDATE
  }

  lemma {:induction false} FoldMalformed(prior: Edge, evs: seq<Event>, t: string)
    ensures Fold(prior, evs + [Malformed(t)]) ==
              if t == GLOBALS_UPDATE then Fold(prior, evs).(globals := map[]) else Fold(prior, evs)
  {
    assert (evs + [Malformed(t)])[..|evs|] == evs;
  }

  /** A connection yields the events that arrived and, if it ends cleanly, a malformed one for a fragment. */
  lemma {:induction false} CutEmits(c: Codec<Event>, items: seq<Item<Event>>, n: nat, k: Ending)
    requires EdgeCodec(c) && AllPrintable(c, items) && AllWhole(c, items) && n <= |Print(c, items)|
    ensures var frag := Fragment(c, items, n);
            ReadText(SseReader(c), Print(c, items)[..n], k) ==
              if frag.None? || !k.Clean? then Arrived(c, items, n, k)
              else Arrived(c, items, n, k) + [Malformed(ShownType(c, frag.value.0))]
  {
    CutAnywhere(c, items, n, k);
    if Fragment(c, items, n).Some? {
      WholeFragmentsFail(c, items);
      FragmentIsSynthesised(c, items, n);
    }
  }

  /**
    What the end of a connection does to an edge: nothing beyond the events that
    arrived, except that a clean end inside a globals update empties the globals.
   */
  lemma {:induction false} CutAtEdge(c: Codec<Event>, items: seq<Item<Event>>, n: nat, k: Ending, prior: Edge)
    requires EdgeCodec(c) && AllPrintable(c, items) && AllWhole(c, items) && n <= |Print(c, items)|
    ensures var arrived := Fold(prior, Arrived(c, items, n, k));
            Fold(prior, ReadText(SseReader(c), Print(c, items)[..n], k)) ==
              if k.Clean? && BreaksGlobals(c, items, n) then arrived.(globals := map[]) else arrived
  {
    CutEmits(c, items, n, k);
    if Fragment(c, items, n).Some? {
      FoldMalformed(prior, Arrived(c, items, n, k), ShownType(c, Fragment(c, items, n).value.0));
    }
  }

  /** Exactly the clean ends inside a globals update change the edge, unless it has no globals features to lose. */
  lemma {:induction false} CutChangesEdgeIff(c: Codec<Event>, items: seq<Item<Event>>, n: nat, k: Ending, prior: Edge)
    requires EdgeCodec(c) && AllPrintable(c, items) && AllWhole(c, items) && n <= |Print(c, items)|
    ensures Fold(prior, ReadText(SseReader(c), Print(c, items)[..n], k)) != Fold(prior, Arrived(c, items, n, k))
            <==> k.Clean? && BreaksGlobals(c, items, n) && Fold(prior, Arrived(c, items, n, k)).globals != map[]
  {
    CutAtEdge(c, items, n, k, prior);
  }
}
