/**
 Requests that use the pool of inline connections concurrently (backend/internal/mcp/stdio.go).
 Each lock region is one step, and so are each close and each connect between them; any steps
 of other requests may come in between.
 */
module StdioRuns {
  import opened Basics
  import opened StdioPool

  // --- All interleavings -------------------------------------------------------------------------

  // A request that has registered its key: it closes what it evicted, then connects.
  datatype Call = Call(id: string, evicted: seq<string>)

  // The pool, the requests that are neither hits nor done, and the open connections. A
  // connect fails on invalid parameters alone, and a key is the hash of all parameters: so
  // which connects fail is a function of the key.
  datatype System = System(pool: Pool, calls: map<nat, Call>, connected: set<string>, fails: string -> bool)

  datatype Event =
    | Register(request: nat, id: string)
    | Close(request: nat)
    | Connect(request: nat)
    | FailConnect(request: nat)

  function Start(fails: string -> bool): System { System(Pool(map[], map[], []), map[], {}, fails) }

  predicate Enabled(s: System, e: Event) {
    match e
    case Register(r, _) => r !in s.calls
    case Close(r) => r in s.calls && s.calls[r].evicted != []
    case Connect(r) => r in s.calls && s.calls[r].evicted == [] && !s.fails(s.calls[r].id)
    case FailConnect(r) => r in s.calls && s.calls[r].evicted == [] && s.fails(s.calls[r].id)
  }

  // Without a value the step would index an empty slice.
  function Next(s: System, e: Event): Option<System>
    requires Enabled(s, e)
  {
    match e
    case Register(r, id) =>
      if id in s.pool.hash then Some(s)
      else
        (match Registered(s.pool, id)
         case None => None
         case Some(pooled) => Some(s.(pool := pooled.0, calls := s.calls[r := Call(id, pooled.1)])))
    case Close(r) =>
      var call := s.calls[r];
      Some(s.(calls := s.calls[r := call.(evicted := call.evicted[1..])], connected := s.connected - {call.evicted[0]}))
    case Connect(r) => Some(s.(calls := s.calls - {r}, connected := s.connected + {s.calls[r].id}))
    case FailConnect(r) => Some(s.(calls := s.calls - {r}, pool := Forgotten(s.pool, s.calls[r].id)))
  }

  // No open connection has a key whose connect fails.
  ghost predicate OpenKeysConnect(s: System) { forall id :: id in s.connected ==> !s.fails(id) }

  lemma NextKeepsInv(s: System, e: Event)
    requires Inv(s.pool) && Enabled(s, e)
    ensures Next(s, e).Some? && Inv(Next(s, e).value.pool) && Next(s, e).value.fails == s.fails
    ensures OpenKeysConnect(s) ==> OpenKeysConnect(Next(s, e).value)
  {
    match e
    case Register(_, id) => RegisterKeepsInv(s.pool, id);
    case FailConnect(r) => ForgetKeepsInv(s.pool, s.calls[r].id);
    case _ =>
  }

  datatype Outcome = Impossible | IndexError | Reached(system: System)

  // Some events in a row, of any requests.
  function After(fails: string -> bool, events: seq<Event>): Outcome {
    if events == [] then Reached(Start(fails))
    else
      match After(fails, events[..|events| - 1])
      case Reached(s) =>
        var e := events[|events| - 1];
        if !Enabled(s, e) then Impossible
        else (match Next(s, e) case None => IndexError case Some(next) => Reached(next))
      case other => other
  }

  /**
   In every interleaving, failed connects included, the loop never indexes an empty slice, and
   the two tables have the same keys, at most 8 of them, all in the order.
   */
  lemma {:induction false} EveryRunKeepsInv(fails: string -> bool, events: seq<Event>)
    ensures !After(fails, events).IndexError?
    ensures After(fails, events).Reached? ==>
              var s := After(fails, events).system; Inv(s.pool) && s.fails == fails && OpenKeysConnect(s)
  {
    if events == [] {
      assert Start(fails).pool.hash.Keys == {};
    } else {
      var init, e := events[..|events| - 1], events[|events| - 1];
      EveryRunKeepsInv(fails, init);
      if After(fails, init).Reached? && Enabled(After(fails, init).system, e) {
        NextKeepsInv(After(fails, init).system, e);
      }
    }
  }

  // --- The order ---------------------------------------------------------------------------------

  // No stale entries: the order lists the pooled keys, oldest registration first.
  ghost predicate Tidy(p: Pool) {
    (forall k :: k in p.order <==> k in p.hash) && forall i, j :: 0 <= i < j < |p.order| ==> p.order[i] != p.order[j]
  }

  lemma TidyShift(p: Pool, q: Pool, id: string)
    requires Tidy(p) && p.order != [] && id !in p.hash
    requires q.order == p.order[1..] + [id] && q.hash.Keys == p.hash.Keys - {p.order[0]} + {id}
    ensures Tidy(q)
  {
    assert p.order == [p.order[0]] + p.order[1..];
    forall k ensures k in q.order <==> k in q.hash {
      assert k in p.order[1..] <==> k in p.order && k != p.order[0];
    }
  }

  lemma TidyGrow(p: Pool, q: Pool, id: string)
    requires Tidy(p) && id !in p.hash && q.order == p.order + [id] && q.hash.Keys == p.hash.Keys + {id}
    ensures Tidy(q)
  {
  }

  /** Without stale entries a full pool gives up its oldest registration, and none become stale. */
  lemma RegisterIsFifo(p: Pool, id: string)
    requires Inv(p) && Tidy(p) && id !in p.hash
    ensures Registered(p, id).Some? && Tidy(Registered(p, id).value.0)
    ensures var (q, evicted) := Registered(p, id).value;
            if |p.hash| < CAP then evicted == [] && q.order == p.order + [id]
            else evicted == [p.order[0]] && q.order == p.order[1..] + [id]
  {
    if |p.hash| == CAP {
      FullPoolHasOrder(p);
      assert p.order[0] in p.order;
      RegisteredFull(p, id);
      hide Registered, Inv, Ordered, Tidy;
      TidyShift(p, Registered(p, id).value.0, id);
    } else {
      RegisteredFree(p, id);
      hide Registered, Inv, Ordered, Tidy;
      TidyGrow(p, Registered(p, id).value.0, id);
    }
  }

  lemma RegisteredFull(p: Pool, id: string)
    requires Inv(p) && |p.hash| == CAP && id !in p.hash && p.order != [] && p.order[0] in p.hash
    ensures Registered(p, id).Some? && Registered(p, id).value.1 == [p.order[0]]
    ensures var q := Registered(p, id).value.0;
            q.order == p.order[1..] + [id] && q.hash.Keys == p.hash.Keys - {p.order[0]} + {id}
  {
    EvictPooledHead(p);
    hide Evict, Inv, Ordered;
  }

  lemma RegisteredFree(p: Pool, id: string)
    requires |p.hash| < CAP && id !in p.hash
    ensures Registered(p, id).Some? && Registered(p, id).value.1 == []
    ensures var q := Registered(p, id).value.0; q.order == p.order + [id] && q.hash.Keys == p.hash.Keys + {id}
  {
    assert Evict(p) == Some((p, []));
    hide Evict;
  }

  // The step forgets a key that is pooled.
  predicate Forgets(s: System, e: Event)
    requires Enabled(s, e)
  {
    e.FailConnect? && s.calls[e.request].id in s.pool.hash
  }

  /** In a pool without stale entries, a step leaves one exactly when it is a failed connect of a pooled key. */
  lemma TidyStepIff(s: System, e: Event)
    requires Inv(s.pool) && Tidy(s.pool) && Enabled(s, e)
    ensures Next(s, e).Some? && (Tidy(Next(s, e).value.pool) <==> !Forgets(s, e))
  {
    NextKeepsInv(s, e);
    if e.Register? && e.id !in s.pool.hash {
      RegisterIsFifo(s.pool, e.id);
    } else if e.FailConnect? {
      ForgetLeavesStale(s.pool, s.calls[e.request].id);
    }
  }

  lemma ForgetLeavesStale(p: Pool, id: string)
    requires Tidy(p)
    ensures Tidy(Forgotten(p, id)) <==> id !in p.hash
  {
    if id in p.hash {
      assert id in p.order && id !in Forgotten(p, id).hash;
    } else {
      assert p.hash - {id} == p.hash;
    }
  }

  // The pool was tidy all along.
  ghost predicate StaysTidy(fails: string -> bool, events: seq<Event>) {
    && After(fails, events).Reached? && Tidy(After(fails, events).system.pool)
    && (events == [] || StaysTidy(fails, events[..|events| - 1]))
  }

  // No event of the run was a failed connect of a pooled key.
  ghost predicate NothingForgotten(fails: string -> bool, events: seq<Event>) {
    events == []
    || var init, e := events[..|events| - 1], events[|events| - 1];
       && NothingForgotten(fails, init)
       && After(fails, init).Reached? && Enabled(After(fails, init).system, e) && !Forgets(After(fails, init).system, e)
  }

  /**
   A run keeps the pool first in, first out, its order listing exactly the pooled keys, as
   long as no failed connect forgets a pooled key, and no longer.
   */
  lemma {:induction false} StaysTidyIff(fails: string -> bool, events: seq<Event>)
    requires After(fails, events).Reached?
    ensures StaysTidy(fails, events) <==> NothingForgotten(fails, events)
    ensures NothingForgotten(fails, events) ==>
              var p := After(fails, events).system.pool; |p.order| == |p.hash| <= CAP
  {
    hide Tidy, Next, Enabled, Forgets, Inv;
    if events == [] {
      StartIsTidy(fails);
    } else {
      var init, e := events[..|events| - 1], events[|events| - 1];
      StaysTidyIff(fails, init);
      EveryRunKeepsInv(fails, init);
      if StaysTidy(fails, init) {
        TidyStepIff(After(fails, init).system, e);
      }
    }
    EveryRunKeepsInv(fails, events);
    if StaysTidy(fails, events) {
      TidySize(After(fails, events).system.pool);
    }
  }

  lemma StartIsTidy(fails: string -> bool)
    ensures Tidy(Start(fails).pool) && After(fails, []) == Reached(Start(fails))
  {
  }

  lemma TidySize(p: Pool)
    requires Inv(p) && Tidy(p)
    ensures |p.order| == |p.hash| <= CAP
  {
    DistinctSize(p.order, p.hash.Keys);
  }

  // The failed connects of a run.
  function Failures(events: seq<Event>): nat {
    if events == [] then 0 else Failures(events[..|events| - 1]) + (if events[|events| - 1].FailConnect? then 1 else 0)
  }

  /** In every run the order is at most as long as the pooled keys and the failed connects together. */
  lemma {:induction false} OrderBound(fails: string -> bool, events: seq<Event>)
    requires After(fails, events).Reached?
    ensures var p := After(fails, events).system.pool;
            |p.order| <= |p.hash| + Failures(events) <= CAP + Failures(events)
  {
    hide Next, Inv, Enabled;
    if events == [] {
      StartIsTidy(fails);
    } else {
      var init, e := events[..|events| - 1], events[|events| - 1];
      OrderBound(fails, init);
      EveryRunKeepsInv(fails, init);
      OrderStep(After(fails, init).system, e);
    }
    EveryRunKeepsInv(fails, events);
    InvBounds(After(fails, events).system.pool);
  }

  lemma InvBounds(p: Pool)
    requires Inv(p)
    ensures |p.hash| <= CAP
  {
  }

  lemma OrderStep(s: System, e: Event)
    requires Inv(s.pool) && Enabled(s, e)
    ensures Next(s, e).Some?
    ensures var p, q := s.pool, Next(s, e).value.pool;
            |q.order| - |q.hash| <= |p.order| - |p.hash| + (if e.FailConnect? then 1 else 0)
  {
    NextKeepsInv(s, e);
    if e.Register? && e.id !in s.pool.hash {
      RegisterShrinks(s.pool, e.id);
    } else if e.FailConnect? && s.calls[e.request].id in s.pool.hash {
      SizeWithout(s.pool.hash, s.calls[e.request].id);
    } else if e.FailConnect? {
      assert s.pool.hash - {s.calls[e.request].id} == s.pool.hash;
    }
  }

  lemma OneMoreKey(h: map<string, string>, g: map<string, string>, id: string)
    requires id !in h && g.Keys == h.Keys + {id}
    ensures |g| == |h| + 1 && forall k :: k in g <==> k in h || k == id
  {
    assert |g.Keys| == |h.Keys| + 1;
    assert forall k :: k in g <==> k in g.Keys;
  }

  lemma RegisterShrinks(p: Pool, id: string)
    requires Inv(p) && id !in p.hash && Registered(p, id).Some?
    ensures var q := Registered(p, id).value.0; |q.order| - |q.hash| <= |p.order| - |p.hash|
  {
    hide Evict, Victims, Elements, Inv;
    EvictedForKey(p, id);
    EvictShrinks(p);
    var r := Evict(p).value.0;
    AddedKeepsInv(r, id);
    OneMoreKey(r.hash, Added(r, id).hash, id);
  }

  lemma {:induction false} EvictShrinks(p: Pool)
    requires Inv(p)
    ensures Evict(p).Some? ==> |Evict(p).value.0.order| - |Evict(p).value.0.hash| <= |p.order| - |p.hash|
    decreases |p.order|
  {
    if |p.hash| >= CAP && p.order != [] {
      DropOldestKeeps(p);
      if p.order[0] in p.hash {
        SizeWithout(p.hash, p.order[0]);
      }
      EvictShrinks(DropOldest(p).0);
    }
  }

  // Failed connects of one key, over and over.
  function Retries(n: nat, id: string): seq<Event> {
    if n == 0 then [] else Retries(n - 1, id) + [Register(0, id), FailConnect(0)]
  }

  lemma OneMoreEvent(fails: string -> bool, events: seq<Event>, e: Event)
    requires After(fails, events).Reached? && Enabled(After(fails, events).system, e)
    requires Next(After(fails, events).system, e).Some?
    ensures After(fails, events + [e]) == Reached(Next(After(fails, events).system, e).value)
  {
    hide Next, Enabled;
    assert (events + [e])[..|events|] == events;
  }

  // A registration and its failure leave nothing but the entry.
  lemma FailedRegistration(s: System, id: string)
    requires s.pool.hash == map[] && s.pool.ids == map[] && s.calls == map[] && s.fails(id)
    ensures Enabled(s, Register(0, id)) && Next(s, Register(0, id)).Some?
    ensures var mid := Next(s, Register(0, id)).value;
            && Enabled(mid, FailConnect(0)) && Next(mid, FailConnect(0)).Some?
            && var end := Next(mid, FailConnect(0)).value;
            && end.pool.hash == map[] && end.pool.ids == map[] && end.calls == map[]
            && end.pool.order == s.pool.order + [id]
  {
    assert Evict(s.pool) == Some((s.pool, []));
    hide Evict;
    assert map[id := id] - {id} == map[];
  }

  // Nothing pooled and nobody connecting.
  ghost predicate Idle(s: System) { s.pool.hash == map[] && s.pool.ids == map[] && s.calls == map[] }

  lemma OneMoreFailure(fails: string -> bool, events: seq<Event>, id: string)
    requires After(fails, events).Reached? && Idle(After(fails, events).system) && After(fails, events).system.fails(id)
    ensures After(fails, events + [Register(0, id), FailConnect(0)]).Reached?
    ensures var s, t := After(fails, events).system, After(fails, events + [Register(0, id), FailConnect(0)]).system;
            Idle(t) && t.pool.order == s.pool.order + [id]
  {
    hide After, Next, Enabled;
    FailedRegistration(After(fails, events).system, id);
    OneMoreEvent(fails, events, Register(0, id));
    OneMoreEvent(fails, events + [Register(0, id)], FailConnect(0));
    assert events + [Register(0, id)] + [FailConnect(0)] == events + [Register(0, id), FailConnect(0)];
  }

  lemma NoEvents(fails: string -> bool)
    ensures After(fails, []) == Reached(Start(fails)) && Idle(Start(fails))
  {
  }

  /** The order has no bound: every failed connect leaves an entry behind. */
  lemma {:induction false} FailuresGrowTheOrder(fails: string -> bool, n: nat, id: string)
    requires fails(id)
    ensures After(fails, Retries(n, id)).Reached?
    ensures var s := After(fails, Retries(n, id)).system; |s.pool.order| == n && Idle(s)
  {
    hide After, Idle;
    if n > 0 {
      FailuresGrowTheOrder(fails, n - 1, id);
      EveryRunKeepsInv(fails, Retries(n - 1, id));
      OneMoreFailure(fails, Retries(n - 1, id), id);
    } else {
      NoEvents(fails);
    }
  }

  // --- Open connections and pooled keys ----------------------------------------------------------

  ghost predicate Connecting(s: System, id: string) { exists r :: r in s.calls && s.calls[r].id == id }

  ghost predicate Closing(s: System, id: string) { exists r :: r in s.calls && id in s.calls[r].evicted }

  // What is open and not pooled is about to be closed; what is pooled and not open is being
  // connected.
  ghost predicate Clean(s: System) {
    && (forall id :: id in s.connected && id !in s.pool.hash ==> Closing(s, id))
    && (forall id :: id in s.pool.hash && id !in s.connected ==> Connecting(s, id))
  }

  // The steps that keep it so.
  ghost predicate Harmless(s: System, e: Event)
    requires Enabled(s, e)
  {
    match e
    case Register(_, _) => true
    case Close(r) => var id := s.calls[r].evicted[0]; id in s.pool.hash ==> Connecting(s, id)
    case Connect(r) => var id := s.calls[r].id; id in s.pool.hash || Closing(s, id)
    case FailConnect(_) => true
  }

  lemma RegisterKeepsClean(s: System, r: nat, id: string)
    requires Inv(s.pool) && Clean(s) && r !in s.calls
    ensures Next(s, Register(r, id)).Some? && Clean(Next(s, Register(r, id)).value)
  {
    RegisterKeepsInv(s.pool, id);
    if id !in s.pool.hash {
      hide Inv, Registered, Victims, Elements, Clean;
      VictimElements(Victims(s.pool, id));
      CallStarts(s, Next(s, Register(r, id)).value, r, id, Victims(s.pool, id));
    }
  }

  lemma VictimElements(victims: seq<string>)
    ensures forall x :: x in Elements(victims) <==> x in victims
  {
  }

  // Request r has pooled its key and is to close what it evicted.
  lemma CallStarts(s: System, t: System, r: nat, id: string, victims: seq<string>)
    requires Clean(s) && r !in s.calls && t.calls == s.calls[r := Call(id, victims)] && t.connected == s.connected
    requires forall x :: x in t.pool.hash <==> x == id || (x in s.pool.hash && x !in victims)
    ensures Clean(t)
  {
    assert r in t.calls && t.calls[r] == Call(id, victims);
    forall x | x in t.connected && x !in t.pool.hash ensures Closing(t, x) {
      if x !in s.pool.hash {
        var k :| k in s.calls && x in s.calls[k].evicted;
        assert k in t.calls && t.calls[k] == s.calls[k];
      }
    }
    forall x | x in t.pool.hash && x !in t.connected ensures Connecting(t, x) {
      if x != id {
        var k :| k in s.calls && s.calls[k].id == x;
        assert k in t.calls && t.calls[k] == s.calls[k];
      }
    }
  }

  lemma CloseKeepsCleanIff(s: System, r: nat)
    requires Clean(s) && Enabled(s, Close(r))
    ensures Clean(Next(s, Close(r)).value) <==> Harmless(s, Close(r))
  {
    var t, id := Next(s, Close(r)).value, s.calls[r].evicted[0];
    assert forall x :: Connecting(s, x) <==> Connecting(t, x) by {
      assert forall k :: k in s.calls <==> k in t.calls;
      assert forall k :: k in s.calls ==> s.calls[k].id == t.calls[k].id;
    }
    forall x | x in s.connected && x !in s.pool.hash && x != id ensures Closing(t, x) {
      var k :| k in s.calls && x in s.calls[k].evicted;
      assert x in t.calls[k].evicted;
    }
    hide Connecting, Closing;
  }

  lemma CallEnds(s: System, t: System, r: nat)
    requires r in s.calls && s.calls[r].evicted == [] && t.calls == s.calls - {r}
    ensures forall x :: Closing(t, x) <==> Closing(s, x)
    ensures forall x :: x != s.calls[r].id ==> (Connecting(t, x) <==> Connecting(s, x))
  {
    forall x ensures Closing(t, x) <==> Closing(s, x) {
      if k :| k in s.calls && x in s.calls[k].evicted {
        assert k in t.calls;
      }
    }
    forall x | x != s.calls[r].id ensures Connecting(t, x) <==> Connecting(s, x) {
      if k :| k in s.calls && s.calls[k].id == x {
        assert k in t.calls;
      }
    }
  }

  lemma ConnectKeepsCleanIff(s: System, r: nat)
    requires Clean(s) && Enabled(s, Connect(r))
    ensures Clean(Next(s, Connect(r)).value) <==> Harmless(s, Connect(r))
  {
    CallEnds(s, Next(s, Connect(r)).value, r);
    hide Connecting, Closing;
  }

  lemma FailureKeepsClean(s: System, r: nat)
    requires Clean(s) && OpenKeysConnect(s) && Enabled(s, FailConnect(r))
    ensures Clean(Next(s, FailConnect(r)).value)
  {
    CallEnds(s, Next(s, FailConnect(r)).value, r);
    hide Connecting, Closing;
  }

  /**
   From a clean state every registration and every failed connect leads to one. A close does
   unless it closes a pooled key nobody is connecting, a connect unless its key is neither
   pooled nor about to be closed.
   */
  lemma CleanStepIff(s: System, e: Event)
    requires Inv(s.pool) && OpenKeysConnect(s) && Clean(s) && Enabled(s, e)
    ensures Next(s, e).Some? && (Clean(Next(s, e).value) <==> Harmless(s, e))
  {
    hide Clean, Inv, OpenKeysConnect;
    NextKeepsInv(s, e);
    match e
    case Register(r, id) => RegisterKeepsClean(s, r, id);
    case Close(r) => CloseKeepsCleanIff(s, r);
    case Connect(r) => ConnectKeepsCleanIff(s, r);
    case FailConnect(r) => FailureKeepsClean(s, r);
  }

  // The state was clean all along.
  ghost predicate StaysClean(fails: string -> bool, events: seq<Event>) {
    && After(fails, events).Reached? && Clean(After(fails, events).system)
    && (events == [] || StaysClean(fails, events[..|events| - 1]))
  }

  ghost predicate AllHarmless(fails: string -> bool, events: seq<Event>) {
    events == []
    || var init, e := events[..|events| - 1], events[|events| - 1];
       && AllHarmless(fails, init)
       && After(fails, init).Reached? && Enabled(After(fails, init).system, e) && Harmless(After(fails, init).system, e)
  }

  /**
   A run is clean all along exactly when each of its steps is harmless where it is taken; when
   all its requests are then done, the open connections are the pooled keys.
   */
  lemma {:induction false} StaysCleanIff(fails: string -> bool, events: seq<Event>)
    requires After(fails, events).Reached?
    ensures StaysClean(fails, events) <==> AllHarmless(fails, events)
    ensures AllHarmless(fails, events) && After(fails, events).system.calls == map[] ==>
              After(fails, events).system.connected == After(fails, events).system.pool.hash.Keys
  {
    hide Clean, Next, Enabled, Harmless, Inv;
    if events == [] {
      StartIsClean(fails);
    } else {
      var init, e := events[..|events| - 1], events[|events| - 1];
      StaysCleanIff(fails, init);
      EveryRunKeepsInv(fails, init);
      if StaysClean(fails, init) {
        CleanStepIff(After(fails, init).system, e);
      }
    }
    if StaysClean(fails, events) && After(fails, events).system.calls == map[] {
      QuietAndClean(After(fails, events).system);
    }
  }

  lemma StartIsClean(fails: string -> bool)
    ensures Clean(Start(fails)) && After(fails, []) == Reached(Start(fails))
  {
  }

  lemma QuietAndClean(s: System)
    requires Clean(s) && s.calls == map[]
    ensures s.connected == s.pool.hash.Keys
  {
  }

  // --- Runs that leave the state unclean ---------------------------------------------------------

  // Keys that differ in their length.
  function KeyNo(i: nat): (k: string)
    ensures |k| == i
  {
    seq(i, _ => 'k')
  }

  // Requests 0 to n - 1 register a key each.
  function Fill(n: nat): seq<Event> {
    if n == 0 then [] else Fill(n - 1) + [Register(n - 1, KeyNo(n - 1))]
  }

  function KeyList(n: nat): seq<string> { if n == 0 then [] else KeyList(n - 1) + [KeyNo(n - 1)] }

  function CallMap(n: nat): map<nat, Call> { if n == 0 then map[] else CallMap(n - 1)[n - 1 := Call(KeyNo(n - 1), [])] }

  lemma {:induction false} ListAndMap(n: nat)
    ensures |KeyList(n)| == n && forall i :: 0 <= i < n ==> KeyList(n)[i] == KeyNo(i)
    ensures forall r: nat :: r in CallMap(n) <==> r < n
    ensures forall r :: r in CallMap(n) ==> CallMap(n)[r] == Call(KeyNo(r), [])
  {
    if n > 0 {
      ListAndMap(n - 1);
    }
  }

  // Those keys are pooled, and all of those requests are still connecting.
  ghost predicate Filled(s: System, n: nat) {
    && Inv(s.pool) && |s.pool.hash| == n
    && (forall k :: k in s.pool.hash <==> |k| < n && k == KeyNo(|k|))
    && s.pool.order == KeyList(n) && s.calls == CallMap(n) && s.connected == {}
  }

  lemma {:induction false} FillRun(fails: string -> bool, n: nat)
    requires n <= CAP
    ensures After(fails, Fill(n)).Reached? && Filled(After(fails, Fill(n)).system, n)
  {
    hide Filled, Enabled, Next;
    if n == 0 {
      NothingFilled(fails);
    } else {
      FillRun(fails, n - 1);
      FillStep(After(fails, Fill(n - 1)).system, n - 1);
      OneMoreEvent(fails, Fill(n - 1), Register(n - 1, KeyNo(n - 1)));
    }
  }

  lemma NothingFilled(fails: string -> bool)
    ensures After(fails, []) == Reached(Start(fails)) && Filled(Start(fails), 0)
  {
  }

  lemma FillStep(s: System, n: nat)
    requires n < CAP && Filled(s, n)
    ensures var e := Register(n, KeyNo(n)); Enabled(s, e) && Next(s, e).Some? && Filled(Next(s, e).value, n + 1)
  {
    hide Inv, Registered;
    var e := Register(n, KeyNo(n));
    ListAndMap(n);
    RegisterKeepsInv(s.pool, KeyNo(n));
    RegisteredFree(s.pool, KeyNo(n));
    FilledGrows(s, Next(s, e).value, n);
  }

  lemma FilledGrows(s: System, t: System, n: nat)
    requires Filled(s, n) && Inv(t.pool) && t.pool.hash.Keys == s.pool.hash.Keys + {KeyNo(n)}
    requires t.pool.order == s.pool.order + [KeyNo(n)] && t.calls == s.calls[n := Call(KeyNo(n), [])]
    requires t.connected == s.connected
    ensures Filled(t, n + 1)
  {
    hide Inv;
    OneMoreKey(s.pool.hash, t.pool.hash, KeyNo(n));
    assert KeyList(n + 1) == KeyList(n) + [KeyNo(n)] && CallMap(n + 1) == CallMap(n)[n := Call(KeyNo(n), [])];
    hide KeyList, CallMap;
  }

  // A request that finds the pool full takes the front of the order.
  lemma TakesFront(s: System, r: nat, id: string)
    requires Inv(s.pool) && |s.pool.hash| == CAP && id !in s.pool.hash && r !in s.calls
    requires s.pool.order != [] && s.pool.order[0] in s.pool.hash
    ensures Next(s, Register(r, id)).Some?
    ensures var t := Next(s, Register(r, id)).value;
            && Inv(t.pool) && |t.pool.hash| == CAP
            && t.pool.hash.Keys == s.pool.hash.Keys - {s.pool.order[0]} + {id}
            && t.pool.order == s.pool.order[1..] + [id]
            && t.calls == s.calls[r := Call(id, [s.pool.order[0]])] && t.connected == s.connected && t.fails == s.fails
  {
    RegisteredFull(s.pool, id);
    RegisterKeepsInv(s.pool, id);
    var t := Next(s, Register(r, id)).value;
    SizeWithout(s.pool.hash, s.pool.order[0]);
    hide Inv, Registered;
    OneMoreKey(s.pool.hash - {s.pool.order[0]}, t.pool.hash, id);
  }

  // The pool is full and request 8 has just evicted the key request 0 is connecting.
  lemma EvictedRun(fails: string -> bool) returns (run: seq<Event>, s: System)
    ensures After(fails, run) == Reached(s) && Inv(s.pool) && |s.pool.hash| == CAP
    ensures KeyNo(0) !in s.pool.hash && KeyNo(1) in s.pool.hash && s.pool.order != [] && s.pool.order[0] == KeyNo(1)
    ensures s.calls == CallMap(8)[8 := Call(KeyNo(8), [KeyNo(0)])] && s.connected == {} && s.fails == fails
    ensures forall r: nat :: r in CallMap(8) <==> r < 8
    ensures forall r :: r in CallMap(8) ==> CallMap(8)[r] == Call(KeyNo(r), [])
  {
    hide Next, After, Inv, Fill;
    ListAndMap(8);
    FillRun(fails, 8);
    EveryRunKeepsInv(fails, Fill(8));
    var full := After(fails, Fill(8)).system;
    FullState(full);
    TakesFront(full, 8, KeyNo(8));
    OneMoreEvent(fails, Fill(8), Register(8, KeyNo(8)));
    run, s := Fill(8) + [Register(8, KeyNo(8))], Next(full, Register(8, KeyNo(8))).value;
  }

  lemma FullState(s: System)
    requires Filled(s, 8)
    ensures Inv(s.pool) && |s.pool.hash| == CAP && s.calls == CallMap(8) && s.connected == {} && 8 !in s.calls
    ensures KeyNo(0) in s.pool.hash && KeyNo(1) in s.pool.hash && KeyNo(8) !in s.pool.hash
    ensures |s.pool.order| == 8 && s.pool.order[0] == KeyNo(0) && s.pool.order[1] == KeyNo(1)
    ensures KeyNo(0) != KeyNo(1) && KeyNo(0) != KeyNo(8) && KeyNo(1) != KeyNo(8)
  {
    ListAndMap(8);
    hide Inv, KeyList, CallMap;
    assert |KeyNo(0)| == 0 && |KeyNo(1)| == 1 && |KeyNo(8)| == 8;
  }

  // A request whose key connects closes what it evicted and connects.
  lemma CloseAndConnect(fails: string -> bool, run: seq<Event>, s: System, r: nat, victim: string)
    returns (done: seq<Event>, t: System)
    requires After(fails, run) == Reached(s) && r in s.calls && s.calls[r].evicted == [victim]
    requires !s.fails(s.calls[r].id)
    ensures After(fails, done) == Reached(t) && t.pool == s.pool && t.calls == s.calls - {r} && t.fails == s.fails
    ensures t.connected == s.connected - {victim} + {s.calls[r].id}
  {
    hide After;
    var mid;
    done, mid := CloseVictim(fails, run, s, r, victim);
    assert mid.calls - {r} == s.calls - {r};
    done, t := ConnectKey(fails, done, mid, r);
  }

  lemma CloseVictim(fails: string -> bool, run: seq<Event>, s: System, r: nat, victim: string)
    returns (done: seq<Event>, t: System)
    requires After(fails, run) == Reached(s) && r in s.calls && s.calls[r].evicted == [victim]
    ensures After(fails, done) == Reached(t) && t.pool == s.pool && t.fails == s.fails
    ensures t.calls == s.calls[r := Call(s.calls[r].id, [])] && t.connected == s.connected - {victim}
  {
    hide After;
    assert [victim][1..] == [];
    OneMoreEvent(fails, run, Close(r));
    done, t := run + [Close(r)], Next(s, Close(r)).value;
  }

  lemma ConnectKey(fails: string -> bool, run: seq<Event>, s: System, r: nat) returns (done: seq<Event>, t: System)
    requires After(fails, run) == Reached(s) && r in s.calls && s.calls[r].evicted == [] && !s.fails(s.calls[r].id)
    ensures After(fails, done) == Reached(t) && t.pool == s.pool && t.fails == s.fails
    ensures t.calls == s.calls - {r} && t.connected == s.connected + {s.calls[r].id}
  {
    hide After;
    OneMoreEvent(fails, run, Connect(r));
    done, t := run + [Connect(r)], Next(s, Connect(r)).value;
  }

  /** A run from the start to a connection that is open, not pooled, and not about to be closed. */
  lemma SomeRunLeaks(fails: string -> bool) returns (run: seq<Event>)
    requires !fails(KeyNo(0))
    ensures After(fails, run).Reached?
    ensures var s := After(fails, run).system;
            KeyNo(0) in s.connected && KeyNo(0) !in s.pool.hash && !Closing(s, KeyNo(0))
    ensures !StaysClean(fails, run)
  {
    var s, t;
    run, s := EvictedRun(fails);
    run, t := CloseVictim(fails, run, s, 8, KeyNo(0));
    run, t := ConnectKey(fails, run, t, 0);
    hide After;
  }

  // The evicted key is registered again and connected, by a request that closes key 1 first.
  lemma RegisteredAgain(fails: string -> bool, run: seq<Event>, s: System) returns (again: seq<Event>, t: System)
    requires After(fails, run) == Reached(s) && Inv(s.pool) && |s.pool.hash| == CAP && !s.fails(KeyNo(0))
    requires KeyNo(0) !in s.pool.hash && KeyNo(1) in s.pool.hash && s.pool.order != [] && s.pool.order[0] == KeyNo(1)
    requires 9 !in s.calls
    ensures After(fails, again) == Reached(t) && KeyNo(0) in t.pool.hash && t.fails == s.fails
    ensures t.connected == s.connected - {KeyNo(1)} + {KeyNo(0)} && t.calls == s.calls
  {
    hide After, Inv;
    var id := KeyNo(0);
    TakesFront(s, 9, id);
    var one := Next(s, Register(9, id)).value;
    OneMoreEvent(fails, run, Register(9, id));
    again, t := CloseAndConnect(fails, run + [Register(9, id)], one, 9, KeyNo(1));
    assert s.calls[9 := Call(id, [KeyNo(1)])] - {9} == s.calls;
  }

  /** A run in which a late close leaves a key pooled that is not open and that nobody is connecting. */
  lemma SomeRunClosesAPooledKey(fails: string -> bool) returns (run: seq<Event>)
    requires !fails(KeyNo(0))
    ensures After(fails, run).Reached?
    ensures var s := After(fails, run).system;
            KeyNo(0) in s.pool.hash && KeyNo(0) !in s.connected && !Connecting(s, KeyNo(0))
    ensures !StaysClean(fails, run)
  {
    var s, t;
    run, s := EvictedRun(fails);
    run, t := RegisteredAgain(fails, run, s);
    run, t := ConnectKey(fails, run, t, 0);
    run, t := CloseVictim(fails, run, t, 8, KeyNo(0));
    hide After;
  }
}
