/**
  The retry loop of internal/proxy/transport.go. The pool snapshot is fixed for
  the request; what the negative cache says, when the client gives up and how
  each upstream exchange ends are oracles, since other requests change them
  concurrently. Scores are those of internal/shared/types.go.
 */
module Retry {
  import opened Text
  import Pool

  datatype Backend = Backend(
    port: int, alive: bool, activeConns: int, latencyMs: int, errorRate: real, onion: string)

  function Score(b: Backend): real { Pool.ScoreOf(b.alive, b.activeConns, b.latencyMs, b.errorRate) }

  // ------------------------------------------------------------------
  // Picking a backend.

  predicate Within(pool: seq<Backend>, cands: seq<nat>) {
    forall j | 0 <= j < |cands| :: cands[j] < |pool|
  }

  /** c is the index of a live backend with the least score among the candidates. */
  ghost predicate LeastAlive(pool: seq<Backend>, score: Backend -> real, cands: seq<nat>, c: nat)
    requires Within(pool, cands)
  {
    c in cands && pool[c].alive && forall i | i in cands && pool[i].alive :: score(pool[c]) <= score(pool[i])
  }

  datatype Pick = NoPick | Picked(index: nat)

  method SelectBackend(pool: seq<Backend>, score: Backend -> real, cands: seq<nat>) returns (p: Pick)
    requires Within(pool, cands)
    ensures p.NoPick? <==> forall i | i in cands :: !pool[i].alive
    ensures p.Picked? ==> LeastAlive(pool, score, cands, p.index)
  {
    p := NoPick;
    for k := 0 to |cands|
      invariant p.NoPick? <==> forall i | i in cands[..k] :: !pool[i].alive
      invariant p.Picked? ==> LeastAlive(pool, score, cands[..k], p.index)
    {
      assert cands[..k + 1] == cands[..k] + [cands[k]];
      var b := pool[cands[k]];
      if b.alive && (p.NoPick? || score(b) < score(pool[p.index])) {
        p := Picked(cands[k]);
      }
    }
    assert cands[..|cands|] == cands;
  }

  function Wanted(pool: seq<Backend>, cands: seq<nat>, want: set<string>): (r: seq<nat>)
    requires Within(pool, cands)
    ensures Within(pool, r) && forall i :: i in r <==> i in cands && pool[i].onion in want
  {
    if cands == [] then []
    else
      var n := |cands| - 1;
      var before := Wanted(pool, cands[..n], want);
      assert cands == cands[..n] + [cands[n]];
      if pool[cands[n]].onion in want then before + [cands[n]] else before
  }

  /** The tenant's own backends when one of them is alive, else the whole list. */
  ghost predicate TenantPick(pool: seq<Backend>, score: Backend -> real, cands: seq<nat>, want: set<string>, p: Pick)
    requires Within(pool, cands)
  {
    var own := Wanted(pool, cands, want);
    if exists i | i in own :: pool[i].alive then p.Picked? && LeastAlive(pool, score, own, p.index)
    else if exists i | i in cands :: pool[i].alive then p.Picked? && LeastAlive(pool, score, cands, p.index)
    else p.NoPick?
  }

  method SelectTenantBackend(pool: seq<Backend>, score: Backend -> real, cands: seq<nat>, tenantBackends: seq<string>)
    returns (p: Pick)
    requires Within(pool, cands)
    ensures TenantPick(pool, score, cands, (set o | o in tenantBackends), p)
  {
    if |tenantBackends| == 0 {
      p := SelectBackend(pool, score, cands);
      return;
    }
    var want := set o | o in tenantBackends;
    var filtered := [];
    for k := 0 to |cands|
      invariant filtered == Wanted(pool, cands[..k], want)
    {
      assert cands[..k + 1][..k] == cands[..k];
      if pool[cands[k]].onion in want {
        filtered := filtered + [cands[k]];
      }
    }
    assert cands[..|cands|] == cands;
    p := SelectBackend(pool, score, filtered);
    if p.NoPick? {
      p := SelectBackend(pool, score, cands);
    }
  }

  // ------------------------------------------------------------------
  // Methods, statuses, bodies.

  predicate IsRetryableStatus(code: int) { code == 502 || code == 503 || code == 504 }

  predicate MethodHasRetryableBody(m: string) { UpperAll(m) in {"POST", "PUT", "PATCH", "DELETE"} }

  const MAX_BODY_BYTES: nat := 4 * 1024 * 1024

  /** The request body: absent, unreadable, or its bytes. */
  datatype Source = NoBody | Unreadable | Bytes(bytes: seq<int>)

  /** All that can be read of it. */
  function Content(body: Source): seq<int> { if body.Bytes? then body.bytes else [] }

  /** Where attempts take their body from: a copy for each, or the one reader of the caller, which all of them share. */
  datatype Supply = Copy(bytes: seq<int>) | Reader(bytes: seq<int>)

  datatype Exchange = TransportError | Answer(status: int)

  predicate Failed(x: Exchange) { x.TransportError? || IsRetryableStatus(x.status) }

  datatype Result =
    | BodyError | BodyTooLarge | ClientGone | Response(status: int) | LastError | NoBackend

  /** A backend, and the bytes that are there for it to be sent. */
  datatype Attempt = Attempt(index: nat, body: seq<int>)

  /**
    Everything outside the loop's control. An attempt takes bytes from the body it
    is given, or closes it, which takes the rest.
   */
  datatype World = World(
    clientGone: nat -> bool,
    blacklisted: (nat, nat) -> bool,
    exchange: nat -> Exchange,
    takes: nat -> nat)

  function Without(bytes: seq<int>, taken: nat): seq<int> { if taken <= |bytes| then bytes[taken..] else [] }

  /** What k attempts leave of a reader. */
  function Left(bytes: seq<int>, takes: nat -> nat, k: nat): seq<int> {
    if k == 0 then bytes else Without(Left(bytes, takes, k - 1), takes(k - 1))
  }

  /** What attempt k finds. */
  function Offered(supply: Supply, w: World, k: nat): seq<int> {
    match supply case Copy(bytes) => bytes case Reader(bytes) => Left(bytes, w.takes, k)
  }

  datatype Settings = Settings(retryAttempts: int, hasNegCache: bool, tenantBackends: seq<string>)

  function MaxAttempts(s: Settings): nat { if s.retryAttempts <= 0 then 3 else s.retryAttempts }

  /**
    A request's surroundings: the pool as fetched, how backends are scored, the
    settings, and the rest of the world.
   */
  datatype Case = Case(pool: seq<Backend>, score: Backend -> real, s: Settings, w: World)

  predicate InPool(pool: seq<Backend>, attempts: seq<Attempt>) {
    forall i | 0 <= i < |attempts| :: attempts[i].index < |pool|
  }

  /** Backend i may be tried in attempt k: its port is untried and the negative cache lets it through. */
  predicate Open(c: Case, tried: seq<Attempt>, k: nat, i: nat)
    requires i < |c.pool| && InPool(c.pool, tried)
  {
    && (forall j | 0 <= j < |tried| :: c.pool[tried[j].index].port != c.pool[i].port)
    && !(c.s.hasNegCache && c.pool[i].onion != "" && c.w.blacklisted(k, i))
  }

  predicate Usable(c: Case, tried: seq<Attempt>, k: nat, i: nat)
    requires InPool(c.pool, tried)
  {
    i < |c.pool| && c.pool[i].alive && Open(c, tried, k, i)
  }

  /** Attempt k goes to a usable backend of least score, among the tenant's own if one of those is usable. */
  ghost predicate WellChosen(c: Case, tried: seq<Attempt>, k: nat, best: nat)
    requires InPool(c.pool, tried)
  {
    && Usable(c, tried, k, best)
    && if exists i: nat :: Usable(c, tried, k, i) && c.pool[i].onion in c.s.tenantBackends
       then && c.pool[best].onion in c.s.tenantBackends
            && (forall i: nat | Usable(c, tried, k, i) && c.pool[i].onion in c.s.tenantBackends ::
                  c.score(c.pool[best]) <= c.score(c.pool[i]))
       else forall i: nat | Usable(c, tried, k, i) :: c.score(c.pool[best]) <= c.score(c.pool[i])
  }

  /** No backend is left: every live one has been tried or is blacklisted. */
  ghost predicate Exhausted(c: Case, tried: seq<Attempt>, k: nat)
    requires InPool(c.pool, tried)
  {
    forall i: nat :: !Usable(c, tried, k, i)
  }

  ghost predicate AllWellChosen(c: Case, attempts: seq<Attempt>)
    requires InPool(c.pool, attempts)
  {
    forall k | 0 <= k < |attempts| :: WellChosen(c, attempts[..k], k, attempts[k].index)
  }

  ghost predicate DistinctPorts(pool: seq<Backend>, attempts: seq<Attempt>)
    requires InPool(pool, attempts)
  {
    forall i, j | 0 <= i < j < |attempts| :: pool[attempts[i].index].port != pool[attempts[j].index].port
  }

  ghost predicate AllSend(w: World, attempts: seq<Attempt>, supply: Supply) {
    forall i | 0 <= i < |attempts| :: attempts[i].body == Offered(supply, w, i)
  }

  ghost predicate AllFailed(w: World, n: nat) { forall k | 0 <= k < n :: Failed(w.exchange(k)) }

  lemma {:induction false} PickIsWellChosen(
    c: Case, tried: seq<Attempt>, k: nat, cands: seq<nat>, p: Pick)
    requires InPool(c.pool, tried) && Within(c.pool, cands)
    requires forall i: nat :: i in cands <==> i < |c.pool| && Open(c, tried, k, i)
    requires TenantPick(c.pool, c.score, cands, (set o | o in c.s.tenantBackends), p)
    ensures p.NoPick? <==> Exhausted(c, tried, k)
    ensures p.Picked? ==> WellChosen(c, tried, k, p.index)
  {
    var own := Wanted(c.pool, cands, set o | o in c.s.tenantBackends);
    forall i: nat
      ensures Usable(c, tried, k, i) <==> i in cands && c.pool[i].alive
      ensures Usable(c, tried, k, i) && c.pool[i].onion in c.s.tenantBackends <==> i in own && c.pool[i].alive
    {}
    if i :| i in own && c.pool[i].alive {
      assert Usable(c, tried, k, i);
    }
  }

  function TriedPorts(pool: seq<Backend>, attempts: seq<Attempt>): set<int>
    requires InPool(pool, attempts)
  {
    set j | 0 <= j < |attempts| :: pool[attempts[j].index].port
  }

  /** The attempts made so far. */
  ghost predicate Proper(c: Case, attempts: seq<Attempt>, supply: Supply)
    requires InPool(c.pool, attempts)
  {
    DistinctPorts(c.pool, attempts) && AllWellChosen(c, attempts) && AllSend(c.w, attempts, supply)
  }

  lemma {:induction false} AttemptExtends(
    c: Case, attempts: seq<Attempt>, supply: Supply, index: nat)
    requires InPool(c.pool, attempts) && Proper(c, attempts, supply)
    requires WellChosen(c, attempts, |attempts|, index)
    ensures var more := attempts + [Attempt(index, Offered(supply, c.w, |attempts|))];
            InPool(c.pool, more) && Proper(c, more, supply)
            && TriedPorts(c.pool, more) == TriedPorts(c.pool, attempts) + {c.pool[index].port}
  {
    var body := Offered(supply, c.w, |attempts|);
    var more := attempts + [Attempt(index, body)];
    forall k | 0 <= k < |more|
      ensures WellChosen(c, more[..k], k, more[k].index)
    {
      assert more[..k] == attempts[..k];
      assert k < |attempts| ==> WellChosen(c, attempts[..k], k, attempts[k].index);
      assert attempts[..|attempts|] == attempts;
    }
    PortsExtend(c.pool, attempts, index, body);
  }

  lemma {:induction false} PortsExtend(pool: seq<Backend>, attempts: seq<Attempt>, index: nat, body: seq<int>)
    requires InPool(pool, attempts) && index < |pool|
    ensures TriedPorts(pool, attempts + [Attempt(index, body)]) == TriedPorts(pool, attempts) + {pool[index].port}
  {
    var more := attempts + [Attempt(index, body)];
    assert more[|attempts|].index == index;
    forall p | p in TriedPorts(pool, attempts)
      ensures p in TriedPorts(pool, more)
    {
      var j :| 0 <= j < |attempts| && pool[attempts[j].index].port == p;
      assert more[j] == attempts[j];
    }
  }

  /** The pool without tried ports and blacklisted backends. */
  method Available(c: Case, tried: set<int>, ghost attempts: seq<Attempt>, k: nat)
    returns (cands: seq<nat>)
    requires InPool(c.pool, attempts)
    requires tried == TriedPorts(c.pool, attempts)
    ensures Within(c.pool, cands)
    ensures forall i: nat :: i in cands <==> i < |c.pool| && Open(c, attempts, k, i)
  {
    cands := [];
    for i := 0 to |c.pool|
      invariant Within(c.pool, cands)
      invariant forall m: nat :: m in cands <==> m < i && Open(c, attempts, k, m)
    {
      if c.pool[i].port !in tried {
        if !(c.s.hasNegCache && c.pool[i].onion != "" && c.w.blacklisted(k, i)) {
          cands := cands + [i];
        }
      } else {
        assert exists j :: 0 <= j < |attempts| && c.pool[attempts[j].index].port == c.pool[i].port;
      }
    }
  }

  method NextBackend(c: Case, tried: set<int>, ghost attempts: seq<Attempt>, k: nat)
    returns (p: Pick)
    requires InPool(c.pool, attempts) && tried == TriedPorts(c.pool, attempts)
    ensures p.NoPick? == Exhausted(c, attempts, k)
    ensures p.Picked? ==> WellChosen(c, attempts, k, p.index)
  {
    var cands := Available(c, tried, attempts, k);
    p := SelectTenantBackend(c.pool, c.score, cands, c.s.tenantBackends);
    PickIsWellChosen(c, attempts, k, cands, p);
  }

  /** Where the attempts will take their body from, or the error that stops the request before the first. */
  method BufferBody(m: string, body: Source) returns (early: bool, res: Result, supply: Supply)
    ensures early <==> MethodHasRetryableBody(m) && (body.Unreadable? || (body.Bytes? && |body.bytes| > MAX_BODY_BYTES))
    ensures early ==> res == if body.Unreadable? then BodyError else BodyTooLarge
    ensures !early ==> supply == SupplyOf(m, body)
  {
    early, res, supply := false, NoBackend, Reader(Content(body));
    if !body.NoBody? && MethodHasRetryableBody(m) {
      if body.Unreadable? {
        return true, BodyError, supply;
      }
      if |body.bytes| > MAX_BODY_BYTES {
        return true, BodyTooLarge, supply;
      }
      supply := Copy(body.bytes);
    }
  }

  /** What one attempt tells the negative cache: nothing, or a failure or success of the onion. */
  function Note(s: Settings, onion: string, ok: bool): seq<(string, bool)> {
    if s.hasNegCache && onion != "" then [(onion, ok)] else []
  }

  /** One negative-cache update per attempt on a named onion. */
  function Records(c: Case, attempts: seq<Attempt>): seq<(string, bool)>
    requires InPool(c.pool, attempts)
  {
    if attempts == [] then []
    else
      var n := |attempts| - 1;
      Records(c, attempts[..n]) + Note(c.s, c.pool[attempts[n].index].onion, !Failed(c.w.exchange(n)))
  }

  /** How many of the first k attempts were on a named onion. */
  function NamedBefore(c: Case, attempts: seq<Attempt>, k: nat): (n: nat)
    requires InPool(c.pool, attempts) && k <= |attempts|
    ensures n <= k
  {
    if k == 0 then 0
    else NamedBefore(c, attempts, k - 1) + if c.pool[attempts[k - 1].index].onion != "" then 1 else 0
  }

  /** Anything but an error or one of the three gateway statuses. */
  ghost predicate Answered(x: Exchange) {
    x.Answer? && x.status != 502 && x.status != 503 && x.status != 504
  }

  /** Attempt k on a named onion has its record, a success exactly if it was answered. */
  ghost predicate RecordOk(c: Case, attempts: seq<Attempt>, recorded: seq<(string, bool)>, k: nat)
    requires InPool(c.pool, attempts) && k < |attempts|
  {
    var onion, i := c.pool[attempts[k].index].onion, NamedBefore(c, attempts, k);
    onion != "" ==> i < |recorded| && recorded[i].0 == onion && (recorded[i].1 <==> Answered(c.w.exchange(k)))
  }

  /** With a cache there is one record for each attempt on a named onion, in order; without one there is none. */
  ghost predicate RecordedRightly(c: Case, attempts: seq<Attempt>, recorded: seq<(string, bool)>)
    requires InPool(c.pool, attempts)
  {
    if !c.s.hasNegCache then recorded == []
    else
      && |recorded| == NamedBefore(c, attempts, |attempts|)
      && forall k: nat | k < |attempts| :: RecordOk(c, attempts, recorded, k)
  }

  lemma {:induction false} NamedPrefix(c: Case, attempts: seq<Attempt>, n: nat, k: nat)
    requires InPool(c.pool, attempts) && k <= n <= |attempts|
    ensures InPool(c.pool, attempts[..n]) && NamedBefore(c, attempts[..n], k) == NamedBefore(c, attempts, k)
    decreases k
  {
    if k > 0 {
      NamedPrefix(c, attempts, n, k - 1);
    }
  }

  lemma {:induction false} RecordStays(
    c: Case, before: seq<Attempt>, a: Attempt, recorded: seq<(string, bool)>, more: seq<(string, bool)>, k: nat)
    requires InPool(c.pool, before) && a.index < |c.pool| && k < |before| && RecordOk(c, before, recorded, k)
    ensures InPool(c.pool, before + [a]) && RecordOk(c, before + [a], recorded + more, k)
  {
    assert (before + [a])[..|before|] == before;
    NamedPrefix(c, before + [a], |before|, k);
  }

  lemma {:induction false} RecordLast(c: Case, before: seq<Attempt>, a: Attempt, recorded: seq<(string, bool)>)
    requires InPool(c.pool, before) && a.index < |c.pool| && |recorded| == NamedBefore(c, before, |before|)
    requires c.s.hasNegCache
    ensures var more := recorded + Note(c.s, c.pool[a.index].onion, !Failed(c.w.exchange(|before|)));
            && InPool(c.pool, before + [a]) && RecordOk(c, before + [a], more, |before|)
            && |more| == NamedBefore(c, before + [a], |before| + 1)
  {
    assert (before + [a])[..|before|] == before;
    NamedPrefix(c, before + [a], |before|, |before|);
  }

  /** One more attempt, recorded if its onion is named. */
  lemma {:induction false} RecordNext(c: Case, before: seq<Attempt>, a: Attempt, recorded: seq<(string, bool)>)
    requires InPool(c.pool, before) && a.index < |c.pool| && RecordedRightly(c, before, recorded)
    ensures InPool(c.pool, before + [a])
    ensures RecordedRightly(c, before + [a],
              recorded + Note(c.s, c.pool[a.index].onion, !Failed(c.w.exchange(|before|))))
  {
    var note := Note(c.s, c.pool[a.index].onion, !Failed(c.w.exchange(|before|)));
    if c.s.hasNegCache {
      RecordLast(c, before, a, recorded);
      forall k: nat | k < |before| + 1
        ensures RecordOk(c, before + [a], recorded + note, k)
      {
        if k < |before| {
          RecordStays(c, before, a, recorded, note, k);
        }
      }
    }
  }

  lemma {:induction false} RecordsRightly(c: Case, attempts: seq<Attempt>)
    requires InPool(c.pool, attempts)
    ensures RecordedRightly(c, attempts, Records(c, attempts))
    decreases |attempts|
  {
    if attempts != [] {
      var n := |attempts| - 1;
      RecordsRightly(c, attempts[..n]);
      RecordNext(c, attempts[..n], attempts[n], Records(c, attempts[..n]));
      assert attempts == attempts[..n] + [attempts[n]];
    }
  }

  /** How the loop ended, given the attempts it made. */
  ghost predicate Ends(c: Case, res: Result, attempts: seq<Attempt>)
    requires InPool(c.pool, attempts)
  {
    var n := |attempts|;
    match res
    // every attempt before the answer failed, and an answer that is no gateway error ends the loop
    case Response(status) =>
      n > 0 && AllFailed(c.w, n - 1) && c.w.exchange(n - 1) == Answer(status) && !IsRetryableStatus(status)
    case ClientGone => n < MaxAttempts(c.s) && c.w.clientGone(n) && AllFailed(c.w, n)
    // without an answer: all attempts used up, or no backend left
    case LastError => n > 0 && AllFailed(c.w, n) && (n == MaxAttempts(c.s) || Exhausted(c, attempts, n))
    case NoBackend => n == 0 && Exhausted(c, attempts, n)
    case _ => n == 0
  }

  /** The loop's own record of the attempts: tried ports and negative-cache updates. */
  ghost predicate Logged(
    c: Case, supply: Supply,
    attempts: seq<Attempt>, tried: set<int>, recorded: seq<(string, bool)>)
  {
    && InPool(c.pool, attempts) && Proper(c, attempts, supply)
    && tried == TriedPorts(c.pool, attempts) && recorded == Records(c, attempts)
  }

  lemma {:induction false} LogExtends(
    c: Case, supply: Supply,
    attempts: seq<Attempt>, tried: set<int>, recorded: seq<(string, bool)>, index: nat)
    requires Logged(c, supply, attempts, tried, recorded) == true
    requires InPool(c.pool, attempts) && WellChosen(c, attempts, |attempts|, index)
    ensures Logged(c, supply,
              attempts + [Attempt(index, Offered(supply, c.w, |attempts|))],
              tried + {c.pool[index].port},
              recorded + Note(c.s, c.pool[index].onion, !Failed(c.w.exchange(|attempts|))))
  {
    AttemptExtends(c, attempts, supply, index);
    RecordsExtend(c, attempts, Attempt(index, Offered(supply, c.w, |attempts|)));
  }

  /** What the loop guarantees when it returns. */
  ghost predicate Finished(
    c: Case, supply: Supply,
    res: Result, attempts: seq<Attempt>, recorded: seq<(string, bool)>)
  {
    && InPool(c.pool, attempts) && |attempts| <= MaxAttempts(c.s)
    && Proper(c, attempts, supply) && recorded == Records(c, attempts)
    && Ends(c, res, attempts) && !res.BodyError? && !res.BodyTooLarge?
  }

  /** Without an answer: the client left, no backend is left, or the attempts are used up. */
  lemma {:induction false} StopsWithout(
    c: Case, supply: Supply,
    attempts: seq<Attempt>, tried: set<int>, recorded: seq<(string, bool)>, res: Result)
    requires Logged(c, supply, attempts, tried, recorded) == true
    requires AllFailed(c.w, |attempts|) && |attempts| <= MaxAttempts(c.s)
    requires InPool(c.pool, attempts)
    requires
      || (res == ClientGone && |attempts| < MaxAttempts(c.s) && c.w.clientGone(|attempts|))
      || (res == (if |attempts| > 0 then LastError else NoBackend) && Exhausted(c, attempts, |attempts|))
      || (res == LastError && |attempts| == MaxAttempts(c.s))
    ensures Finished(c, supply, res, attempts, recorded) == true
  {}

  lemma {:induction false} StopsWith(
    c: Case, supply: Supply,
    attempts: seq<Attempt>, tried: set<int>, recorded: seq<(string, bool)>, status: int)
    requires Logged(c, supply, attempts, tried, recorded) == true
    requires 0 < |attempts| <= MaxAttempts(c.s) && AllFailed(c.w, |attempts| - 1)
    requires c.w.exchange(|attempts| - 1) == Answer(status) && !IsRetryableStatus(status)
    ensures Finished(c, supply, Response(status), attempts, recorded) == true
  {}

  function Given(supply: Supply, reader: seq<int>): seq<int> { if supply.Copy? then supply.bytes else reader }

  ghost predicate ReaderAt(supply: Supply, w: World, k: nat, reader: seq<int>) {
    reader == Left(supply.bytes, w.takes, k)
  }

  lemma {:induction false} ReaderMoves(supply: Supply, w: World, k: nat, reader: seq<int>)
    requires ReaderAt(supply, w, k, reader) == true
    ensures Given(supply, reader) == Offered(supply, w, k)
    ensures ReaderAt(supply, w, k + 1, Without(reader, w.takes(k))) == true
  {}

  method TryBackends(c: Case, supply: Supply)
    returns (res: Result, attempts: seq<Attempt>, recorded: seq<(string, bool)>)
    ensures Finished(c, supply, res, attempts, recorded) == true
  {
    attempts, recorded := [], [];
    var maxAttempts := MaxAttempts(c.s);
    var tried: set<int> := {};
    var reader := supply.bytes;
    var k := 0;
    while k < maxAttempts
      invariant k == |attempts| <= maxAttempts
      invariant Logged(c, supply, attempts, tried, recorded) == true
      invariant AllFailed(c.w, k)
      invariant ReaderAt(supply, c.w, k, reader) == true
    {
      if c.w.clientGone(k) {
        StopsWithout(c, supply, attempts, tried, recorded, ClientGone);
        return ClientGone, attempts, recorded;
      }
      var p := NextBackend(c, tried, attempts, k);
      if p.NoPick? {
        res := if k > 0 then LastError else NoBackend;
        StopsWithout(c, supply, attempts, tried, recorded, res);
        return;
      }
      LogExtends(c, supply, attempts, tried, recorded, p.index);
      ReaderMoves(supply, c.w, k, reader);
      var x := c.w.exchange(k);
      attempts := attempts + [Attempt(p.index, Given(supply, reader))];
      reader := Without(reader, c.w.takes(k));
      tried := tried + {c.pool[p.index].port};
      recorded := recorded + Note(c.s, c.pool[p.index].onion, !Failed(x));
      if !Failed(x) {
        StopsWith(c, supply, attempts, tried, recorded, x.status);
        return Response(x.status), attempts, recorded;
      }
      FailedExtends(c.w, k);
      k := k + 1;
    }
    res := LastError;
    StopsWithout(c, supply, attempts, tried, recorded, res);
  }

  lemma {:induction false} FailedExtends(w: World, n: nat)
    requires AllFailed(w, n) && Failed(w.exchange(n))
    ensures AllFailed(w, n + 1)
  {}

  lemma {:induction false} RecordsExtend(c: Case, attempts: seq<Attempt>, a: Attempt)
    requires InPool(c.pool, attempts) && a.index < |c.pool|
    ensures InPool(c.pool, attempts + [a])
    ensures Records(c, attempts + [a]) ==
              Records(c, attempts) + Note(c.s, c.pool[a.index].onion, !Failed(c.w.exchange(|attempts|)))
  {
    assert (attempts + [a])[..|attempts|] == attempts;
  }

  /** Methods with a retryable body get copies. */
  function SupplyOf(m: string, body: Source): Supply {
    if MethodHasRetryableBody(m) && body.Bytes? then Copy(body.bytes) else Reader(Content(body))
  }

  /**
    What a request comes to: at most MaxAttempts attempts on distinct ports,
    each on a best usable backend and with what is there of the body (Proper),
    ending only for one of the reasons in Ends.
   */
  ghost predicate Outcome(
    c: Case, m: string, body: Source, res: Result, attempts: seq<Attempt>, recorded: seq<(string, bool)>)
  {
    && InPool(c.pool, attempts) && |attempts| <= MaxAttempts(c.s)
    && Proper(c, attempts, SupplyOf(m, body))
    && Ends(c, res, attempts)
    && (res.BodyError? <==> MethodHasRetryableBody(m) && body.Unreadable?)
    && (res.BodyTooLarge? <==> MethodHasRetryableBody(m) && body.Bytes? && |body.bytes| > MAX_BODY_BYTES)
    && recorded == Records(c, attempts)
  }

  /** The methods whose bodies are buffered, and the largest body that is. */
  ghost predicate Buffered(m: string) { UpperAll(m) in {"POST", "PUT", "PATCH", "DELETE"} }

  /** Backend i is up, its port was not tried before attempt k, and no cache has its onion blacklisted then. */
  ghost predicate Eligible(c: Case, attempts: seq<Attempt>, k: nat, i: nat)
    requires InPool(c.pool, attempts) && k <= |attempts|
  {
    && i < |c.pool| && c.pool[i].alive
    && (forall j | 0 <= j < k :: c.pool[attempts[j].index].port != c.pool[i].port)
    && (c.s.hasNegCache && c.pool[i].onion != "" ==> !c.w.blacklisted(k, i))
  }

  /** Attempt k goes to an eligible backend: of the tenant's if there is one, and of those to one of least score. */
  ghost predicate BestChoice(c: Case, attempts: seq<Attempt>, k: nat)
    requires InPool(c.pool, attempts) && k < |attempts|
  {
    var best := attempts[k].index;
    && Eligible(c, attempts, k, best)
    && forall i: nat | Eligible(c, attempts, k, i) ::
         || (c.pool[best].onion in c.s.tenantBackends && c.pool[i].onion !in c.s.tenantBackends)
         || (&& (c.pool[i].onion in c.s.tenantBackends <==> c.pool[best].onion in c.s.tenantBackends)
             && c.score(c.pool[best]) <= c.score(c.pool[i]))
  }

  lemma {:induction false} EligibleIff(c: Case, attempts: seq<Attempt>, k: nat, i: nat)
    requires InPool(c.pool, attempts) && k <= |attempts|
    ensures InPool(c.pool, attempts[..k]) && (Usable(c, attempts[..k], k, i) <==> Eligible(c, attempts, k, i))
  {
    if Usable(c, attempts[..k], k, i) {
      forall j | 0 <= j < k
        ensures c.pool[attempts[j].index].port != c.pool[i].port
      {
        assert attempts[..k][j] == attempts[j];
      }
    }
  }

  lemma {:induction false} ChosenIsBest(c: Case, attempts: seq<Attempt>, k: nat)
    requires InPool(c.pool, attempts) && k < |attempts| && WellChosen(c, attempts[..k], k, attempts[k].index)
    ensures BestChoice(c, attempts, k)
  {
    forall i: nat
      ensures Usable(c, attempts[..k], k, i) <==> Eligible(c, attempts, k, i)
    {
      EligibleIff(c, attempts, k, i);
    }
  }

  /** What the caller is told, and what the cache, in terms of the exchanges alone. */
  ghost predicate Accounts(
    c: Case, m: string, body: Source, res: Result, attempts: seq<Attempt>, recorded: seq<(string, bool)>)
    requires InPool(c.pool, attempts)
  {
    && |attempts| <= (if c.s.retryAttempts > 0 then c.s.retryAttempts else 3)
    && (res.Response? <==> attempts != [] && Answered(c.w.exchange(|attempts| - 1)))
    && (res.Response? ==> c.w.exchange(|attempts| - 1) == Answer(res.status))
    && (forall k: nat | k < |attempts| - 1 :: !Answered(c.w.exchange(k)))
    && (res.BodyError? <==> Buffered(m) && body.Unreadable?)
    && (res.BodyTooLarge? <==> Buffered(m) && body.Bytes? && |body.bytes| > 4194304)
    && RecordedRightly(c, attempts, recorded)
    && (forall k: nat | k < |attempts| :: BestChoice(c, attempts, k))
    // giving up before the last attempt means that nothing is left
    && (res.LastError? || res.NoBackend? ==>
          |attempts| == (if c.s.retryAttempts > 0 then c.s.retryAttempts else 3)
          || forall i: nat :: !Eligible(c, attempts, |attempts|, i))
  }

  lemma {:induction false} NothingLeftToTry(c: Case, attempts: seq<Attempt>)
    requires InPool(c.pool, attempts) && Exhausted(c, attempts, |attempts|)
    ensures forall i: nat :: !Eligible(c, attempts, |attempts|, i)
  {
    assert attempts[..|attempts|] == attempts;
    forall i: nat
      ensures !Eligible(c, attempts, |attempts|, i)
    {
      EligibleIff(c, attempts, |attempts|, i);
    }
  }

  lemma {:induction false} OutcomeAccounts(
    c: Case, m: string, body: Source, res: Result, attempts: seq<Attempt>, recorded: seq<(string, bool)>)
    requires Outcome(c, m, body, res, attempts, recorded)
    ensures Accounts(c, m, body, res, attempts, recorded)
  {
    RecordsRightly(c, attempts);
    var n := |attempts|;
    forall k: nat | k < n
      ensures BestChoice(c, attempts, k)
    {
      assert WellChosen(c, attempts[..k], k, attempts[k].index);
      ChosenIsBest(c, attempts, k);
    }
    if Exhausted(c, attempts, n) {
      NothingLeftToTry(c, attempts);
    }
    assert n > 0 && !res.Response? ==> Failed(c.w.exchange(n - 1));
    assert forall k: nat | k < n - 1 :: Failed(c.w.exchange(k));
  }

  /** With a cache and named onions there is a record per attempt: a success exactly if it brought the response. */
  lemma {:induction false} LastRecordTells(
    c: Case, m: string, body: Source, res: Result, attempts: seq<Attempt>, recorded: seq<(string, bool)>, k: nat)
    requires InPool(c.pool, attempts) && Accounts(c, m, body, res, attempts, recorded)
    requires c.s.hasNegCache && k < |attempts|
    requires forall j: nat | j < |attempts| :: c.pool[attempts[j].index].onion != ""
    ensures |recorded| == |attempts|
    ensures recorded[k] == (c.pool[attempts[k].index].onion, res.Response? && k == |attempts| - 1)
  {
    AllNamed(c, attempts, |attempts|);
    AllNamed(c, attempts, k);
    assert RecordOk(c, attempts, recorded, k);
  }

  lemma {:induction false} AllNamed(c: Case, attempts: seq<Attempt>, k: nat)
    requires InPool(c.pool, attempts) && k <= |attempts|
    requires forall j: nat | j < |attempts| :: c.pool[attempts[j].index].onion != ""
    ensures NamedBefore(c, attempts, k) == k
    decreases k
  {
    if k > 0 {
      AllNamed(c, attempts, k - 1);
    }
  }

  method RoundTrip(pool: seq<Backend>, s: Settings, w: World, m: string, body: Source)
    returns (res: Result, attempts: seq<Attempt>, recorded: seq<(string, bool)>)
    ensures Outcome(Case(pool, Score, s, w), m, body, res, attempts, recorded)
    ensures InPool(pool, attempts) && Accounts(Case(pool, Score, s, w), m, body, res, attempts, recorded)
    ensures WholeFor(pool, s, m, body) ==> AllWhole(attempts, body)
  {
    var c := Case(pool, Score, s, w);
    var early, r, supply := BufferBody(m, body);
    if early {
      res, attempts, recorded := r, [], [];
      OutcomeAccounts(c, m, body, res, attempts, recorded);
      return;
    }
    res, attempts, recorded := TryBackends(c, supply);
    OutcomeAccounts(c, m, body, res, attempts, recorded);
    if WholeFor(pool, s, m, body) {
      EveryBodyIsWhole(c, m, body, res, attempts, recorded);
    }
  }

  // ------------------------------------------------------------------
  // Which requests can be sent in part.

  ghost predicate AllWhole(attempts: seq<Attempt>, body: Source) {
    forall i | 0 <= i < |attempts| :: attempts[i].body == Content(body)
  }

  predicate OneLivePort(pool: seq<Backend>) {
    forall i, j | 0 <= i < |pool| && 0 <= j < |pool| && pool[i].alive && pool[j].alive :: pool[i].port == pool[j].port
  }

  /** There are copies, or nothing to copy, or there can be no second attempt. */
  predicate WholeFor(pool: seq<Backend>, s: Settings, m: string, body: Source) {
    MethodHasRetryableBody(m) || Content(body) == [] || MaxAttempts(s) == 1 || OneLivePort(pool)
  }

  lemma {:induction false} NothingLeft(takes: nat -> nat, k: nat)
    ensures Left([], takes, k) == []
    decreases k
  {
    if k > 0 {
      NothingLeft(takes, k - 1);
    }
  }

  lemma {:induction false} TwoAttemptsTwoPorts(c: Case, attempts: seq<Attempt>, supply: Supply)
    requires InPool(c.pool, attempts) && Proper(c, attempts, supply) && |attempts| > 1
    ensures !OneLivePort(c.pool)
  {
    var a, b := c.pool[attempts[0].index], c.pool[attempts[1].index];
    assert WellChosen(c, attempts[..0], 0, attempts[0].index) && WellChosen(c, attempts[..1], 1, attempts[1].index);
    assert a.alive && b.alive && a.port != b.port;
  }

  lemma {:induction false} EveryBodyIsWhole(
    c: Case, m: string, body: Source, res: Result, attempts: seq<Attempt>, recorded: seq<(string, bool)>)
    requires WholeFor(c.pool, c.s, m, body) && Outcome(c, m, body, res, attempts, recorded)
    ensures AllWhole(attempts, body)
  {
    if |attempts| > 1 {
      TwoAttemptsTwoPorts(c, attempts, SupplyOf(m, body));
    }
    forall i | 0 <= i < |attempts|
      ensures attempts[i].body == Content(body)
    {
      if Content(body) == [] {
        NothingLeft(c.w.takes, i);
      }
    }
  }

  /** A world in which every attempt fails after taking n bytes, and nothing else interferes. */
  function AllFail(n: nat): World {
    World(k => false, (k, i) => false, k => TransportError, k => n)
  }

  /** A live backend on each of two ports: after one attempt there is still one to try. */
  lemma {:induction false} TwoPortsTwoAttempts(c: Case, attempts: seq<Attempt>, i: nat, j: nat, n: nat)
    requires c.w == AllFail(n) && InPool(c.pool, attempts) && i < |c.pool| && j < |c.pool|
    requires c.pool[i].alive && c.pool[j].alive && c.pool[i].port != c.pool[j].port
    requires Exhausted(c, attempts, |attempts|)
    ensures |attempts| >= 2
  {
    assert !Usable(c, attempts, |attempts|, i) && !Usable(c, attempts, |attempts|, j);
  }

  /** There, a request that is not among those above makes a second attempt with nothing to send. */
  lemma {:induction false} SecondAttemptIsEmpty(
    c: Case, m: string, body: Source, res: Result, attempts: seq<Attempt>, recorded: seq<(string, bool)>)
    requires c.w == AllFail(|Content(body)|) && !WholeFor(c.pool, c.s, m, body)
    requires Outcome(c, m, body, res, attempts, recorded)
    ensures |attempts| >= 2 && attempts[1].body == [] != Content(body)
  {
    var i, j :| 0 <= i < |c.pool| && 0 <= j < |c.pool| && c.pool[i].alive && c.pool[j].alive &&
      c.pool[i].port != c.pool[j].port;
    if |attempts| < 2 {
      assert Failed(c.w.exchange(0));
      TwoPortsTwoAttempts(c, attempts, i, j, |Content(body)|);
    }
    assert Left(Content(body), c.w.takes, 0) == Content(body);
  }

  lemma {:induction false} LeastOf(pool: seq<Backend>, score: Backend -> real, s: set<nat>) returns (best: nat)
    requires s != {} && forall i | i in s :: i < |pool|
    ensures best in s && forall i | i in s :: score(pool[best]) <= score(pool[i])
    decreases s
  {
    var x :| x in s;
    best := x;
    if s != {x} {
      var y := LeastOf(pool, score, s - {x});
      if score(pool[y]) < score(pool[x]) {
        best := y;
      }
      assert forall i | i in s :: i == x || i in s - {x};
    }
  }

  /** As long as a backend is usable there is one to choose. */
  lemma {:induction false} ChoiceExists(c: Case, tried: seq<Attempt>, k: nat) returns (best: nat)
    requires InPool(c.pool, tried) && !Exhausted(c, tried, k)
    ensures WellChosen(c, tried, k, best)
  {
    var usable := set i: nat | i < |c.pool| && Usable(c, tried, k, i);
    var own := set i: nat | i < |c.pool| && Usable(c, tried, k, i) && c.pool[i].onion in c.s.tenantBackends;
    if own != {} {
      best := LeastOf(c.pool, c.score, own);
    } else {
      var i: nat :| Usable(c, tried, k, i);
      assert i in usable;
      best := LeastOf(c.pool, c.score, usable);
      assert forall i: nat | Usable(c, tried, k, i) && c.pool[i].onion in c.s.tenantBackends :: i in own;
    }
  }

  /** From any point of the loop there is a way to its end. */
  lemma {:induction false} LoopEnds(
    c: Case, supply: Supply, attempts: seq<Attempt>, tried: set<int>, recorded: seq<(string, bool)>)
    returns (res: Result, final: seq<Attempt>, all: seq<(string, bool)>)
    requires Logged(c, supply, attempts, tried, recorded) == true
    requires AllFailed(c.w, |attempts|) && |attempts| <= MaxAttempts(c.s)
    ensures Finished(c, supply, res, final, all) == true
    decreases MaxAttempts(c.s) - |attempts|
  {
    var k := |attempts|;
    res, final, all := LastError, attempts, recorded;
    assert InPool(c.pool, attempts);
    if k == MaxAttempts(c.s) {
      StopsWithout(c, supply, attempts, tried, recorded, res);
    } else if c.w.clientGone(k) {
      res := ClientGone;
      StopsWithout(c, supply, attempts, tried, recorded, res);
    } else if Exhausted(c, attempts, k) {
      res := if k > 0 then LastError else NoBackend;
      StopsWithout(c, supply, attempts, tried, recorded, res);
    } else {
      var index := ChoiceExists(c, attempts, k);
      var x := c.w.exchange(k);
      LogExtends(c, supply, attempts, tried, recorded, index);
      final := attempts + [Attempt(index, Offered(supply, c.w, k))];
      var tried' := tried + {c.pool[index].port};
      all := recorded + Note(c.s, c.pool[index].onion, !Failed(x));
      if Failed(x) {
        FailedExtends(c.w, k);
        res, final, all := LoopEnds(c, supply, final, tried', all);
      } else {
        res := Response(x.status);
        StopsWith(c, supply, final, tried', all, x.status);
      }
    }
  }

  lemma {:induction false} OutcomeExists(c: Case, m: string, body: Source)
    returns (res: Result, attempts: seq<Attempt>, recorded: seq<(string, bool)>)
    requires !MethodHasRetryableBody(m)
    ensures Outcome(c, m, body, res, attempts, recorded)
  {
    res, attempts, recorded := LoopEnds(c, SupplyOf(m, body), [], {}, []);
  }

  /** Whatever the world does, every attempt is offered the whole body: exactly for the requests above. */
  lemma {:induction false} WholeBodyIff(
    pool: seq<Backend>, score: Backend -> real, s: Settings, m: string, body: Source)
    ensures WholeFor(pool, s, m, body) <==>
            forall w, res, attempts, recorded | Outcome(Case(pool, score, s, w), m, body, res, attempts, recorded) ::
              AllWhole(attempts, body)
  {
    if WholeFor(pool, s, m, body) {
      forall w, res, attempts, recorded | Outcome(Case(pool, score, s, w), m, body, res, attempts, recorded)
        ensures AllWhole(attempts, body)
      {
        EveryBodyIsWhole(Case(pool, score, s, w), m, body, res, attempts, recorded);
      }
    } else {
      var c := Case(pool, score, s, AllFail(|Content(body)|));
      var res, attempts, recorded := OutcomeExists(c, m, body);
      SecondAttemptIsEmpty(c, m, body, res, attempts, recorded);
    }
  }
}
