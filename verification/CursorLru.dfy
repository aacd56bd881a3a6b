/**
 The store refines a textbook LRU map: sessions stamped with their last use, from which the
 one with the least stamp is evicted while there are too many.
 */
module CursorLru {
  import opened Basics
  import opened CursorStore

  datatype Lru<Row> = Lru(ttl: int, capacity: nat, maxRows: nat, sessions: map<Id, Session<Row>>,
                          lastUse: map<Id, nat>, clock: nat)

  ghost predicate Stamped<Row>(a: Lru<Row>) { a.lastUse.Keys == a.sessions.Keys }

  ghost predicate LeastRecent<Row>(a: Lru<Row>, e: Id)
    requires Stamped(a)
  {
    e in a.sessions && forall x :: x in a.sessions ==> a.lastUse[e] <= a.lastUse[x]
  }

  function Drop<Row>(a: Lru<Row>, e: Id): Lru<Row> {
    a.(sessions := a.sessions - {e}, lastUse := a.lastUse - {e})
  }

  lemma {:induction false} LeastExists(lastUse: map<Id, nat>, keys: set<Id>)
    requires keys != {} && keys <= lastUse.Keys
    ensures exists e :: e in keys && forall x :: x in keys ==> lastUse[e] <= lastUse[x]
    decreases keys
  {
    var k :| k in keys;
    if keys != {k} {
      LeastExists(lastUse, keys - {k});
      var e :| e in keys - {k} && forall x :: x in keys - {k} ==> lastUse[e] <= lastUse[x];
      assert forall x :: x in keys ==> x == k || x in keys - {k};
      assert lastUse[e] <= lastUse[k] || forall x :: x in keys ==> lastUse[k] <= lastUse[x];
    }
  }

  lemma SomeLeastRecent<Row>(a: Lru<Row>)
    requires Stamped(a) && 0 < |a.sessions|
    ensures exists e :: LeastRecent(a, e)
  {
    assert a.sessions.Keys != {};
    LeastExists(a.lastUse, a.sessions.Keys);
    var e :| e in a.sessions.Keys && forall x :: x in a.sessions.Keys ==> a.lastUse[e] <= a.lastUse[x];
    assert LeastRecent(a, e);
  }

  // Evicts the least recently used session while there are more than the capacity.
  ghost function Evicted<Row>(a: Lru<Row>): (r: Lru<Row>)
    requires Stamped(a)
    ensures Stamped(r)
    decreases |a.sessions|
  {
    if |a.sessions| <= a.capacity then a
    else
      SomeLeastRecent(a);
      var e :| LeastRecent(a, e);
      assert |a.sessions.Keys - {e}| == |a.sessions.Keys| - 1;
      assert (a.sessions - {e}).Keys == a.sessions.Keys - {e};
      Evicted(Drop(a, e))
  }

  function Use<Row>(a: Lru<Row>, id: Id, session: Session<Row>): Lru<Row> {
    a.(sessions := a.sessions[id := session], lastUse := a.lastUse[id := a.clock], clock := a.clock + 1)
  }

  function Alive<Row>(a: Lru<Row>, now: int): Lru<Row>
    requires Stamped(a)
  {
    a.(sessions := map x | x in a.sessions && IsLive(a.sessions, x, now) :: a.sessions[x],
       lastUse := map x | x in a.sessions && IsLive(a.sessions, x, now) :: a.lastUse[x])
  }

  // What the operations of the cursor store mean on the LRU map.
  ghost function LruStep<Row>(a: Lru<Row>, op: Op<Row>): (r: Lru<Row>)
    requires Stamped(a)
    ensures Stamped(r)
  {
    match op
    case PutOp(id, rows, topic, now) =>
      var kept := if |rows| > a.maxRows then rows[..a.maxRows] else rows;
      Evicted(Use(Alive(a, now), id, Session(topic, kept, |rows| > a.maxRows, 0, now + a.ttl)))
    case NextOp(id, n, offset, now) =>
      if id !in a.sessions then a
      else if now >= a.sessions[id].expiresAt then Drop(a, id)
      else Use(a, id, a.sessions[id].(offset := CursorStore.Read(a.sessions[id], n, offset).nextOffset))
    case SetTtlOp(ttl) => if ttl <= 0 then a else a.(ttl := ttl)
    case SetCapacityOp(capacity) => if capacity <= 0 then a else Evicted(a.(capacity := capacity))
  }

  // --- The refinement relation ---------------------------------------------------------------------

  // The order lists the ids by increasing last use.
  ghost predicate SortedByUse(order: seq<Id>, lastUse: map<Id, nat>) {
    && (forall i :: 0 <= i < |order| ==> order[i] in lastUse)
    && (forall i, j :: 0 <= i < j < |order| ==> lastUse[order[i]] < lastUse[order[j]])
  }

  ghost predicate Refines<Row>(s: State<Row>, a: Lru<Row>) {
    && Listed(s) && Stamped(a)
    && s.ttl == a.ttl && s.capacity == a.capacity && s.maxRows == a.maxRows && s.sessions == a.sessions
    && SortedByUse(s.order, a.lastUse)
    && forall x :: x in a.lastUse ==> a.lastUse[x] < a.clock
  }

  lemma SizesAgree<Row>(s: State<Row>, a: Lru<Row>)
    requires Refines(s, a)
    ensures |s.order| == |a.sessions| && s.capacity == a.capacity && Stamped(a)
  {
    DistinctSize(s.order, s.sessions.Keys);
  }

  lemma {:induction false} TrimRefines<Row>(s: State<Row>, a: Lru<Row>)
    requires Refines(s, a)
    ensures Refines(Trimmed(s), Evicted(a))
    decreases |s.order|
  {
    hide Refines, Listed, Distinct, SortedByUse, LeastRecent;
    SizesAgree(s, a);
    if |s.order| > s.capacity {
      FirstIsLeast(s, a);
      DropFirstRefines(s, a);
      TrimRefines(s.(sessions := s.sessions - {s.order[0]}, order := s.order[1..]), Drop(a, s.order[0]));
    }
  }

  // The front of the order is the one session the LRU map can evict.
  lemma FirstIsLeast<Row>(s: State<Row>, a: Lru<Row>)
    requires Refines(s, a) && s.order != []
    ensures forall e :: LeastRecent(a, e) <==> e == s.order[0]
  {
    var oldest := s.order[0];
    forall x | x in a.sessions && x != oldest
      ensures a.lastUse[oldest] < a.lastUse[x]
    {
      assert x in s.order;
      var i :| 0 <= i < |s.order| && s.order[i] == x;
    }
    assert oldest in s.sessions;
  }

  lemma DropFirstRefines<Row>(s: State<Row>, a: Lru<Row>)
    requires Refines(s, a) && s.order != []
    ensures Refines(s.(sessions := s.sessions - {s.order[0]}, order := s.order[1..]), Drop(a, s.order[0]))
  {
    TailListed(s);
  }

  lemma {:induction false} KeptSorted<Row>(order: seq<Id>, sessions: map<Id, Session<Row>>, now: int,
                                           lastUse: map<Id, nat>)
    requires SortedByUse(order, lastUse)
    ensures SortedByUse(Kept(order, sessions, now), lastUse)
  {
    if order != [] {
      var init, last := order[..|order| - 1], order[|order| - 1];
      KeptSorted(init, sessions, now, lastUse);
      var k := Kept(init, sessions, now);
      forall i | 0 <= i < |k|
        ensures lastUse[k[i]] < lastUse[last]
      {
        assert k[i] in init;
        var j :| 0 <= j < |init| && init[j] == k[i];
        assert order[j] == k[i];
      }
    }
  }

  lemma {:induction false} RemoveSorted(order: seq<Id>, id: Id, lastUse: map<Id, nat>)
    requires SortedByUse(order, lastUse)
    ensures SortedByUse(Remove(order, id), lastUse)
    ensures forall x :: x in Remove(order, id) ==> x in order
  {
    if order != [] && order[0] != id {
      RemoveSorted(order[1..], id, lastUse);
      var w := Remove(order[1..], id);
      forall i | 0 <= i < |w|
        ensures lastUse[order[0]] < lastUse[w[i]]
      {
        assert w[i] in order[1..];
        var j :| 0 <= j < |order[1..]| && order[1..][j] == w[i];
        assert order[j + 1] == w[i];
      }
    }
  }

  lemma SortedSame(order: seq<Id>, lastUse: map<Id, nat>, other: map<Id, nat>)
    requires SortedByUse(order, lastUse)
    requires forall i :: 0 <= i < |order| ==> order[i] in other && other[order[i]] == lastUse[order[i]]
    ensures SortedByUse(order, other)
  {
  }

  lemma PrunedSorted<Row>(s: State<Row>, a: Lru<Row>, now: int)
    requires Refines(s, a)
    ensures SortedByUse(Pruned(s, now).order, Alive(a, now).lastUse)
  {
    KeptSorted(s.order, s.sessions, now, a.lastUse);
    var k, b := Kept(s.order, s.sessions, now), Alive(a, now);
    hide SortedByUse, Listed;
    forall i | 0 <= i < |k|
      ensures k[i] in b.lastUse && b.lastUse[k[i]] == a.lastUse[k[i]]
    {
      assert k[i] in k;
    }
    SortedSame(k, a.lastUse, b.lastUse);
  }

  lemma PruneRefines<Row>(s: State<Row>, a: Lru<Row>, now: int)
    requires Refines(s, a)
    ensures Refines(Pruned(s, now), Alive(a, now))
  {
    PrunedSorted(s, a, now);
    PrunedListed(s, now);
    hide SortedByUse, Distinct, Kept;
    assert Pruned(s, now).sessions == Alive(a, now).sessions;
  }

  // Appending id as the most recently used one, when the order does not list it.
  lemma UseRefines<Row>(s: State<Row>, a: Lru<Row>, id: Id, session: Session<Row>, order: seq<Id>)
    requires Refines(s, a)
    requires Distinct(order) && id !in order && SortedByUse(order, a.lastUse)
    requires forall x :: x in s.sessions && x != id <==> x in order
    ensures Refines(s.(sessions := s.sessions[id := session], order := order + [id]), Use(a, id, session))
  {
    SortedAppend(order, id, a.lastUse, a.clock);
    DistinctAppend(order, id);
    hide SortedByUse, Distinct;
  }

  lemma DistinctAppend(order: seq<Id>, id: Id)
    requires Distinct(order) && id !in order
    ensures Distinct(order + [id]) && forall x :: x in order + [id] <==> x in order || x == id
  {
  }

  lemma SortedAppend(order: seq<Id>, id: Id, lastUse: map<Id, nat>, clock: nat)
    requires SortedByUse(order, lastUse) && id !in order
    requires forall x :: x in lastUse ==> lastUse[x] < clock
    ensures SortedByUse(order + [id], lastUse[id := clock])
  {
    assert forall i :: 0 <= i < |order| ==> order[i] in order;
  }

  lemma DropRefines<Row>(s: State<Row>, a: Lru<Row>, id: Id)
    requires Refines(s, a)
    ensures Refines(s.(sessions := s.sessions - {id}, order := Remove(s.order, id)), Drop(a, id))
  {
    RemoveFacts(s.order, id);
    RemoveSorted(s.order, id, a.lastUse);
    var w := Remove(s.order, id);
    assert forall i :: 0 <= i < |w| ==> w[i] in w;
  }

  /** Every operation of the store does to the order what the LRU map does to its stamps. */
  lemma StepRefines<Row>(s: State<Row>, a: Lru<Row>, op: Op<Row>)
    requires Refines(s, a) && Fresh(s, op)
    ensures Refines(Step(s, op), LruStep(a, op))
  {
    match op {
      case PutOp(_, _, _, _) => PutRefines(s, a, op);
      case NextOp(_, _, _, _) => NextRefines(s, a, op);
      case SetTtlOp(_) =>
      case SetCapacityOp(capacity) =>
        if capacity > 0 {
          TrimRefines(s.(capacity := capacity), a.(capacity := capacity));
        }
    }
  }

  lemma PutRefines<Row>(s: State<Row>, a: Lru<Row>, op: Op<Row>)
    requires Refines(s, a) && Fresh(s, op) && op.PutOp?
    ensures Refines(Step(s, op), LruStep(a, op))
  {
    var id, session := op.id, NewSession(s, op.rows, op.topic, op.now);
    var p, b := Pruned(s, op.now), Alive(a, op.now);
    PutUnfolds(s, a, op);
    PruneRefines(s, a, op.now);
    PrunedListed(s, op.now);
    hide LruStep, Step, Evicted, Trimmed, Pruned, Alive, Use, NewSession;
    UseRefines(p, b, id, session, p.order);
    hide Refines, Listed;
    TrimRefines(p.(sessions := p.sessions[id := session], order := p.order + [id]), Use(b, id, session));
  }

  lemma PutUnfolds<Row>(s: State<Row>, a: Lru<Row>, op: Op<Row>)
    requires Stamped(a) && a.ttl == s.ttl && a.maxRows == s.maxRows && op.PutOp?
    ensures var p, session := Pruned(s, op.now), NewSession(s, op.rows, op.topic, op.now);
            && Stamped(Use(Alive(a, op.now), op.id, session))
            && LruStep(a, op) == Evicted(Use(Alive(a, op.now), op.id, session))
            && Step(s, op) == Trimmed(p.(sessions := p.sessions[op.id := session], order := p.order + [op.id]))
  {
    hide Evicted, Trimmed, Pruned;
  }

  lemma NextRefines<Row>(s: State<Row>, a: Lru<Row>, op: Op<Row>)
    requires Refines(s, a) && op.NextOp?
    ensures Refines(Step(s, op), LruStep(a, op))
  {
    hide Evicted, Trimmed, Pruned, Alive;
    if op.id in s.sessions {
      var id, session := op.id, s.sessions[op.id];
      RemoveFacts(s.order, id);
      RemoveSorted(s.order, id, a.lastUse);
      if op.now >= session.expiresAt {
        DropRefines(s, a, id);
      } else {
        UseRefines(s, a, id, session.(offset := CursorStore.Read(session, op.n, op.offset).nextOffset),
                   Remove(s.order, id));
      }
    }
  }

  // --- Whole runs ----------------------------------------------------------------------------------

  ghost predicate IsRun<Row>(s: State<Row>, ops: seq<Op<Row>>)
    decreases |ops|
  {
    ops == [] || (Fresh(s, ops[0]) && IsRun(Step(s, ops[0]), ops[1..]))
  }

  ghost function LruAfter<Row>(a: Lru<Row>, ops: seq<Op<Row>>): (r: Lru<Row>)
    requires Stamped(a)
    ensures Stamped(r)
    decreases |ops|
  {
    if ops == [] then a else LruAfter(LruStep(a, ops[0]), ops[1..])
  }

  lemma {:induction false} RunRefinesFrom<Row>(s: State<Row>, a: Lru<Row>, ops: seq<Op<Row>>)
    requires Refines(s, a) && Inv(s) && IsRun(s, ops)
    ensures Refines(After(s, ops), LruAfter(a, ops)) && Inv(After(s, ops))
    decreases |ops|
  {
    if ops != [] {
      StepRefines(s, a, ops[0]);
      StepKeepsInv(s, ops[0]);
      RunRefinesFrom(Step(s, ops[0]), LruStep(a, ops[0]), ops[1..]);
    }
  }

  /**
   Every run from an empty store refines the LRU map: the order is duplicate-free, lists
   exactly the sessions by last use, and never exceeds the capacity.
   */
  lemma EveryRunRefinesLru<Row>(ttl: int, capacity: nat, maxRows: nat, ops: seq<Op<Row>>)
    requires 0 < capacity && IsRun(State(ttl, capacity, maxRows, map[], []), ops)
    ensures var s := After(State(ttl, capacity, maxRows, map[], []), ops);
            Refines(s, LruAfter(Lru(ttl, capacity, maxRows, map[], map[], 0), ops)) && |s.order| <= s.capacity
  {
    RunRefinesFrom(State(ttl, capacity, maxRows, map[], []), Lru(ttl, capacity, maxRows, map[], map[], 0), ops);
  }
}
