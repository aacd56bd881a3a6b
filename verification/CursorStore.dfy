/**
 The digest cursor store (backend/internal/mcp/cursor.go): sessions with a time to live, an
 eviction order that is compacted and shifted inside its backing array, and paged reads.
 The random session id of Put is a parameter.
 */
module CursorStore {
  import opened Basics

  type Id = string

  const PAGE := 20

  datatype Session<Row> = Session(topic: string, rows: seq<Row>, truncated: bool, offset: nat, expiresAt: int)

  // order lists the sessions from least to most recently used.
  datatype State<Row> = State(ttl: int, capacity: nat, maxRows: nat, sessions: map<Id, Session<Row>>, order: seq<Id>)

  datatype Page<Row> = Page(rows: seq<Row>, offset: nat, nextOffset: nat, done: bool)

  datatype Lookup<Row> = Found(page: Page<Row>) | Expired | Unknown

  // --- The operations on values ----------------------------------------------------------------

  predicate IsLive<Row>(sessions: map<Id, Session<Row>>, id: Id, now: int) {
    id in sessions && now < sessions[id].expiresAt
  }

  function Kept<Row>(order: seq<Id>, sessions: map<Id, Session<Row>>, now: int): (r: seq<Id>)
    ensures forall x :: x in r <==> x in order && IsLive(sessions, x, now)
  {
    if order == [] then []
    else
      var last := order[|order| - 1];
      Kept(order[..|order| - 1], sessions, now) + (if IsLive(sessions, last, now) then [last] else [])
  }

  function Surviving<Row>(sessions: map<Id, Session<Row>>, order: seq<Id>, now: int): map<Id, Session<Row>> {
    map x | x in sessions && (x in order ==> IsLive(sessions, x, now)) :: sessions[x]
  }

  function Pruned<Row>(s: State<Row>, now: int): State<Row> {
    s.(sessions := Surviving(s.sessions, s.order, now), order := Kept(s.order, s.sessions, now))
  }

  // Evicts from the front of the order until the capacity is met.
  function Trimmed<Row>(s: State<Row>): State<Row>
    decreases |s.order|
  {
    if |s.order| <= s.capacity then s
    else Trimmed(s.(sessions := s.sessions - {s.order[0]}, order := s.order[1..]))
  }

  function NewSession<Row>(s: State<Row>, rows: seq<Row>, topic: string, now: int): Session<Row> {
    Session(topic, if |rows| > s.maxRows then rows[..s.maxRows] else rows, |rows| > s.maxRows, 0, now + s.ttl)
  }

  function Put<Row>(s: State<Row>, id: Id, rows: seq<Row>, topic: string, now: int): State<Row> {
    var p := Pruned(s, now);
    Trimmed(p.(sessions := p.sessions[id := NewSession(s, rows, topic, now)], order := p.order + [id]))
  }

  function SetTtl<Row>(s: State<Row>, ttl: int): State<Row> { if ttl <= 0 then s else s.(ttl := ttl) }

  function SetCapacity<Row>(s: State<Row>, capacity: int): State<Row> {
    if capacity <= 0 then s else Trimmed(s.(capacity := capacity))
  }

  // The order without the first occurrence of id.
  function Remove(order: seq<Id>, id: Id): seq<Id> {
    if order == [] then [] else if order[0] == id then order[1..] else [order[0]] + Remove(order[1..], id)
  }

  function Read<Row>(session: Session<Row>, n: int, offset: int): (p: Page<Row>)
    ensures p.offset <= p.nextOffset <= |session.rows|
  {
    var n' := if n <= 0 || n > PAGE then PAGE else n;
    var from := Min(if offset < 0 then session.offset else offset, |session.rows|);
    var end := Min(from + n', |session.rows|);
    Page(session.rows[from..end], from, end, end >= |session.rows|)
  }

  function Answer<Row>(s: State<Row>, id: Id, n: int, offset: int, now: int): Lookup<Row> {
    if id !in s.sessions then Unknown
    else if now >= s.sessions[id].expiresAt then Expired
    else Found(Read(s.sessions[id], n, offset))
  }

  function Next<Row>(s: State<Row>, id: Id, n: int, offset: int, now: int): State<Row> {
    match Answer(s, id, n, offset, now)
    case Unknown => s
    case Expired => s.(sessions := s.sessions - {id}, order := Remove(s.order, id))
    case Found(p) =>
      s.(sessions := s.sessions[id := s.sessions[id].(offset := p.nextOffset)], order := Remove(s.order, id) + [id])
  }

  // --- The invariant -----------------------------------------------------------------------------

  ghost predicate Listed<Row>(s: State<Row>) {
    Distinct(s.order) && forall x :: x in s.order <==> x in s.sessions
  }

  ghost predicate Inv<Row>(s: State<Row>) { Listed(s) && 0 < s.capacity && |s.order| <= s.capacity }

  lemma {:induction false} KeptDistinct<Row>(order: seq<Id>, sessions: map<Id, Session<Row>>, now: int)
    requires Distinct(order)
    ensures Distinct(Kept(order, sessions, now)) && |Kept(order, sessions, now)| <= |order|
  {
    if order != [] {
      var init, last := order[..|order| - 1], order[|order| - 1];
      assert order == init + [last];
      KeptDistinct(init, sessions, now);
    }
  }

  lemma PrunedListed<Row>(s: State<Row>, now: int)
    requires Listed(s)
    ensures Pruned(s, now).capacity == s.capacity
    ensures Listed(Pruned(s, now)) && |Pruned(s, now).order| <= |s.order|
    ensures forall x :: x in Pruned(s, now).sessions <==> IsLive(s.sessions, x, now)
  {
    KeptDistinct(s.order, s.sessions, now);
  }

  lemma {:induction false} TrimmedInv<Row>(s: State<Row>)
    requires Listed(s) && 0 < s.capacity
    ensures Inv(Trimmed(s))
    ensures |Trimmed(s).order| <= |s.order|
    ensures s.order != [] ==> s.order[|s.order| - 1] in Trimmed(s).sessions
    ensures forall x :: x in Trimmed(s).sessions ==> x in s.sessions && Trimmed(s).sessions[x] == s.sessions[x]
    decreases |s.order|
  {
    if |s.order| > s.capacity {
      var smaller := s.(sessions := s.sessions - {s.order[0]}, order := s.order[1..]);
      TailListed(s);
      TrimmedInv(smaller);
    }
  }

  lemma TailListed<Row>(s: State<Row>)
    requires Listed(s) && s.order != []
    ensures Listed(s.(sessions := s.sessions - {s.order[0]}, order := s.order[1..]))
  {
    assert forall x :: x in s.order <==> x == s.order[0] || x in s.order[1..];
  }

  lemma {:induction false} RemoveFacts(order: seq<Id>, id: Id)
    requires Distinct(order)
    ensures Distinct(Remove(order, id))
    ensures forall x :: x in Remove(order, id) <==> x in order && x != id
    ensures |Remove(order, id)| == if id in order then |order| - 1 else |order|
  {
    if order != [] {
      assert forall x :: x in order <==> x == order[0] || x in order[1..];
      assert order[0] !in order[1..];
      if order[0] != id {
        RemoveFacts(order[1..], id);
      }
    }
  }

  lemma PutKeepsInv<Row>(s: State<Row>, id: Id, rows: seq<Row>, topic: string, now: int)
    requires Inv(s) && !IsLive(s.sessions, id, now)
    ensures Inv(Put(s, id, rows, topic, now))
    // The session just put is never the one evicted.
    ensures id in Put(s, id, rows, topic, now).sessions
    ensures Put(s, id, rows, topic, now).sessions[id] == NewSession(s, rows, topic, now)
  {
    PrunedListed(s, now);
    hide Pruned, Trimmed, NewSession;
    var p, session := Pruned(s, now), NewSession(s, rows, topic, now);
    AddedListed(p, id, session);
    TrimmedInv(p.(sessions := p.sessions[id := session], order := p.order + [id]));
  }

  lemma AddedListed<Row>(s: State<Row>, id: Id, session: Session<Row>)
    requires Listed(s) && id !in s.sessions
    ensures Listed(s.(sessions := s.sessions[id := session], order := s.order + [id]))
  {
  }

  // A Put appends the id and evicts at most the front.
  lemma PutShape<Row>(s: State<Row>, id: Id, rows: seq<Row>, topic: string, now: int)
    requires Inv(s)
    ensures var p, session, q := Pruned(s, now), NewSession(s, rows, topic, now), Put(s, id, rows, topic, now);
            && q.capacity == s.capacity
            && if |p.order| < s.capacity then q.order == p.order + [id] && q.sessions == p.sessions[id := session]
               else
                 && p.order != [] && q.order == p.order[1..] + [id]
                 && q.sessions == p.sessions[id := session] - {p.order[0]}
  {
    PrunedListed(s, now);
    hide Pruned, NewSession;
    var p := Pruned(s, now);
    if |p.order| == s.capacity {
      var full := p.(sessions := p.sessions[id := NewSession(s, rows, topic, now)], order := p.order + [id]);
      var smaller := full.(sessions := full.sessions - {full.order[0]}, order := full.order[1..]);
      assert Trimmed(full) == Trimmed(smaller) == smaller;
      assert (p.order + [id])[1..] == p.order[1..] + [id];
    }
  }

  // The session just put is the one evicted.
  predicate LosesItself<Row>(s: State<Row>, id: Id, now: int) {
    var order := Pruned(s, now).order;
    IsLive(s.sessions, id, now) && |order| == s.capacity && order != [] && order[0] == id
  }

  /**
   A Put keeps the invariant exactly when the id it draws is not that of a live session. If
   it is, the order lists the id twice, or, when the store is full and the id stands at its
   front, lists it once although the session just put is the one evicted.
   */
  lemma PutKeepsInvIff<Row>(s: State<Row>, id: Id, rows: seq<Row>, topic: string, now: int)
    requires Inv(s)
    ensures Inv(Put(s, id, rows, topic, now)) <==> !IsLive(s.sessions, id, now)
    ensures id in Put(s, id, rows, topic, now).sessions <==> !LosesItself(s, id, now)
    ensures Distinct(Put(s, id, rows, topic, now).order) <==> !IsLive(s.sessions, id, now) || LosesItself(s, id, now)
  {
    PutShape(s, id, rows, topic, now);
    PrunedListed(s, now);
    if IsLive(s.sessions, id, now) {
      hide Pruned, Put, NewSession;
      CollidingOrder(Pruned(s, now).order, id);
    } else {
      hide Pruned, Put, NewSession;
      PutKeepsInv(s, id, rows, topic, now);
    }
  }

  // Appending an element that a sequence already has.
  lemma CollidingOrder(order: seq<Id>, id: Id)
    requires Distinct(order) && id in order
    ensures !Distinct(order + [id])
    ensures Distinct(order[1..] + [id]) <==> order[0] == id
    ensures id in order[1..] + [id]
  {
    var i :| 0 <= i < |order| && order[i] == id;
    assert (order + [id])[i] == (order + [id])[|order|];
    var tail := order[1..] + [id];
    assert tail[|tail| - 1] == id;
    if i > 0 {
      assert tail[i - 1] == order[i] == id;
    }
  }

  lemma NextKeepsInv<Row>(s: State<Row>, id: Id, n: int, offset: int, now: int)
    requires Inv(s)
    ensures Inv(Next(s, id, n, offset, now))
  {
    RemoveFacts(s.order, id);
  }

  lemma SetCapacityKeepsInv<Row>(s: State<Row>, capacity: int)
    requires Inv(s)
    ensures Inv(SetCapacity(s, capacity))
  {
    if capacity > 0 {
      TrimmedInv(s.(capacity := capacity));
    }
  }

  // --- Runs --------------------------------------------------------------------------------------

  datatype Op<Row> =
    | PutOp(id: Id, rows: seq<Row>, topic: string, now: int)
    | NextOp(id: Id, n: int, offset: int, now: int)
    | SetTtlOp(ttl: int)
    | SetCapacityOp(capacity: int)

  function Step<Row>(s: State<Row>, op: Op<Row>): State<Row> {
    match op
    case PutOp(id, rows, topic, now) => Put(s, id, rows, topic, now)
    case NextOp(id, n, offset, now) => Next(s, id, n, offset, now)
    case SetTtlOp(ttl) => SetTtl(s, ttl)
    case SetCapacityOp(capacity) => SetCapacity(s, capacity)
  }

  // The one assumption on ids: a new one does not name a live session.
  predicate Fresh<Row>(s: State<Row>, op: Op<Row>) { op.PutOp? ==> !IsLive(s.sessions, op.id, op.now) }

  lemma StepKeepsInv<Row>(s: State<Row>, op: Op<Row>)
    requires Inv(s) && Fresh(s, op)
    ensures Inv(Step(s, op))
  {
    match op {
      case PutOp(id, rows, topic, now) => PutKeepsInv(s, id, rows, topic, now);
      case NextOp(id, n, offset, now) => NextKeepsInv(s, id, n, offset, now);
      case SetTtlOp(_) =>
      case SetCapacityOp(capacity) => SetCapacityKeepsInv(s, capacity);
    }
  }

  // --- Paging ------------------------------------------------------------------------------------

  // A run during which session id stays and is only read on from where the last read ended.
  ghost predicate ReadsOn<Row>(s: State<Row>, ops: seq<Op<Row>>, id: Id)
    decreases |ops|
  {
    && id in s.sessions
    && (ops != [] ==>
          && (ops[0].PutOp? ==> ops[0].id != id)
          && (ops[0].NextOp? && ops[0].id == id ==>
            ops[0].offset < 0 && Answer(s, id, ops[0].n, ops[0].offset, ops[0].now).Found?)
          && ReadsOn(Step(s, ops[0]), ops[1..], id))
  }

  // The pages those reads return, in order.
  function Pages<Row>(s: State<Row>, ops: seq<Op<Row>>, id: Id): seq<Page<Row>>
    decreases |ops|
  {
    if ops == [] then []
    else
      var op := ops[0];
      (if op.NextOp? && op.id == id && Answer(s, id, op.n, op.offset, op.now).Found?
       then [Answer(s, id, op.n, op.offset, op.now).page] else [])
      + Pages(Step(s, op), ops[1..], id)
  }

  function Rows<Row>(pages: seq<Page<Row>>): seq<Row> {
    if pages == [] then [] else pages[0].rows + Rows(pages[1..])
  }

  function After<Row>(s: State<Row>, ops: seq<Op<Row>>): State<Row>
    decreases |ops|
  {
    if ops == [] then s else After(Step(s, ops[0]), ops[1..])
  }

  // An operation on another session leaves a session that stays as it was.
  lemma OthersUntouched<Row>(s: State<Row>, op: Op<Row>, id: Id)
    requires id in s.sessions && id in Step(s, op).sessions
    requires !(op.PutOp? && op.id == id) && !(op.NextOp? && op.id == id)
    ensures Step(s, op).sessions[id] == s.sessions[id]
  {
    match op {
      case PutOp(x, rows, topic, now) =>
        var p := Pruned(s, now);
        TrimmedSubset(p.(sessions := p.sessions[x := NewSession(s, rows, topic, now)], order := p.order + [x]), id);
      case SetCapacityOp(capacity) =>
        if capacity > 0 { TrimmedSubset(s.(capacity := capacity), id); }
      case _ =>
    }
  }

  lemma {:induction false} TrimmedSubset<Row>(s: State<Row>, id: Id)
    ensures id in Trimmed(s).sessions ==> id in s.sessions && Trimmed(s).sessions[id] == s.sessions[id]
    decreases |s.order|
  {
    if |s.order| > s.capacity {
      TrimmedSubset(s.(sessions := s.sessions - {s.order[0]}, order := s.order[1..]), id);
    }
  }

  /**
   Reading on, interleaved with anything done to other sessions, returns consecutive chunks
   of at most twenty rows that add up to the stored rows between the first and last offset.
   */
  lemma {:induction false} ReadingOnReturnsEveryRow<Row>(s: State<Row>, ops: seq<Op<Row>>, id: Id)
    requires ReadsOn(s, ops, id) && s.sessions[id].offset <= |s.sessions[id].rows|
    ensures id in After(s, ops).sessions
    ensures var a, b := s.sessions[id], After(s, ops).sessions[id];
            && b.rows == a.rows && a.offset <= b.offset <= |a.rows|
            && Rows(Pages(s, ops, id)) == a.rows[a.offset..b.offset]
    decreases |ops|
  {
    if ops != [] {
      var op, s', rest := ops[0], Step(s, ops[0]), ops[1..];
      var a := s.sessions[id];
      hide Step, Pages;
      PagesStep(s, ops, id);
      if op.NextOp? && op.id == id {
        ReadStep(s, op, id);
        ReadingOnReturnsEveryRow(s', rest, id);
        var mid, b := s'.sessions[id].offset, After(s, ops).sessions[id];
        assert a.rows[a.offset..b.offset] == a.rows[a.offset..mid] + a.rows[mid..b.offset];
      } else {
        OthersUntouched(s, op, id);
        ReadingOnReturnsEveryRow(s', rest, id);
      }
    }
  }

  lemma PagesStep<Row>(s: State<Row>, ops: seq<Op<Row>>, id: Id)
    requires ops != [] && ReadsOn(s, ops, id)
    ensures var op, rest := ops[0], Pages(Step(s, ops[0]), ops[1..], id);
            if op.NextOp? && op.id == id
            then Pages(s, ops, id) == [Answer(s, id, op.n, op.offset, op.now).page] + rest
                 && Rows(Pages(s, ops, id)) == Answer(s, id, op.n, op.offset, op.now).page.rows + Rows(rest)
            else Pages(s, ops, id) == rest
  {
    hide Step, Answer;
  }

  lemma ReadStep<Row>(s: State<Row>, op: Op<Row>, id: Id)
    requires id in s.sessions && op.NextOp? && op.id == id && op.offset < 0
    requires s.sessions[id].offset <= |s.sessions[id].rows| && Answer(s, id, op.n, op.offset, op.now).Found?
    ensures id in Step(s, op).sessions
    ensures var a, b, p := s.sessions[id], Step(s, op).sessions[id], Answer(s, id, op.n, op.offset, op.now).page;
            && b == a.(offset := p.nextOffset) && p.offset == a.offset <= p.nextOffset <= |a.rows|
            && p.rows == a.rows[a.offset..p.nextOffset] && p.nextOffset - p.offset <= 20
            && (p.done <==> p.nextOffset == |a.rows|)
            && (a.offset < |a.rows| ==> p.offset < p.nextOffset)
  {
  }

  // A page of at most twenty rows from start on; Done says that it reaches the end.
  predicate IsChunk<Row>(p: Page<Row>, start: nat, size: nat) {
    && p.offset == start <= p.nextOffset && |p.rows| == p.nextOffset - p.offset <= 20
    && (p.done <==> p.nextOffset == size)
    && (p.offset < size ==> p.offset < p.nextOffset)
  }

  /**
   Each chunk starts where the one before ended and moves on while there are rows; Done marks
   exactly the chunks that reach the end, the empty ones behind it included.
   */
  lemma {:induction false} ChunksAreConsecutive<Row>(s: State<Row>, ops: seq<Op<Row>>, id: Id, i: nat)
    requires ReadsOn(s, ops, id) && s.sessions[id].offset <= |s.sessions[id].rows|
    requires i < |Pages(s, ops, id)|
    ensures var ps := Pages(s, ops, id);
            IsChunk(ps[i], if i == 0 then s.sessions[id].offset else ps[i - 1].nextOffset, |s.sessions[id].rows|)
    decreases |ops|
  {
    var op, s', rest := ops[0], Step(s, ops[0]), ops[1..];
    hide Step, Pages, Answer, Rows;
    PagesStep(s, ops, id);
    if op.NextOp? && op.id == id {
      ReadStep(s, op, id);
      if i > 0 {
        hide IsChunk;
        ChunksAreConsecutive(s', rest, id, i - 1);
      }
    } else {
      hide IsChunk;
      OthersUntouched(s, op, id);
      ChunksAreConsecutive(s', rest, id, i);
    }
  }

  /** From the Put on, the chunks up to the first Done add up to the first maxRows rows put. */
  lemma PagingDeliversThePutRows<Row>(s: State<Row>, id: Id, rows: seq<Row>, topic: string, now: int, ops: seq<Op<Row>>)
    requires Inv(s) && !IsLive(s.sessions, id, now)
    requires var s' := Put(s, id, rows, topic, now);
             && ReadsOn(s', ops, id) && Pages(s', ops, id) != []
             && Pages(s', ops, id)[|Pages(s', ops, id)| - 1].done
    ensures Rows(Pages(Put(s, id, rows, topic, now), ops, id)) == rows[..Min(|rows|, s.maxRows)]
  {
    PutKeepsInv(s, id, rows, topic, now);
    var s' := Put(s, id, rows, topic, now);
    ReadingOnReturnsEveryRow(s', ops, id);
    LastOffset(s', ops, id);
    ChunksAreConsecutive(s', ops, id, |Pages(s', ops, id)| - 1);
    var stored := s'.sessions[id].rows;
    assert stored[0..|stored|] == stored;
  }

  // The session's offset is where the last page ended.
  lemma {:induction false} LastOffset<Row>(s: State<Row>, ops: seq<Op<Row>>, id: Id)
    requires ReadsOn(s, ops, id)
    ensures id in After(s, ops).sessions
    ensures var ps := Pages(s, ops, id);
            After(s, ops).sessions[id].offset == if ps == [] then s.sessions[id].offset else ps[|ps| - 1].nextOffset
    decreases |ops|
  {
    if ops != [] {
      LastOffset(Step(s, ops[0]), ops[1..], id);
      if !(ops[0].NextOp? && ops[0].id == id) {
        OthersUntouched(s, ops[0], id);
      }
    }
  }

  // --- Where a page starts and how long it is ----------------------------------------------------

  // A request for n rows gives as many, or twenty if n is out of range, while rows are left.
  ghost predicate IsPageOf<Row>(p: Page<Row>, rows: seq<Row>, start: int, n: int) {
    && 0 <= p.offset && p.offset + |p.rows| <= |rows| && p.nextOffset == p.offset + |p.rows|
    && p.offset == (if start < |rows| then start else |rows|)
    && (forall i :: 0 <= i < |p.rows| ==> p.rows[i] == rows[p.offset + i])
    && (p.done <==> p.nextOffset == |rows|)
    && (if p.done then |p.rows| <= (if 1 <= n <= 20 then n else 20) else |p.rows| == if 1 <= n <= 20 then n else 20)
  }

  /**
   A live session answers with the page at the offset asked for, or where it stands if none is
   asked for, and goes on from there; an expired one is gone.
   */
  lemma AnswersTheRequest<Row>(s: State<Row>, id: Id, n: int, offset: int, now: int)
    ensures Answer(s, id, n, offset, now).Unknown? <==> id !in s.sessions
    ensures Answer(s, id, n, offset, now).Expired? <==> id in s.sessions && s.sessions[id].expiresAt <= now
    ensures Answer(s, id, n, offset, now).Expired? ==> id !in Next(s, id, n, offset, now).sessions
    ensures id in s.sessions && now < s.sessions[id].expiresAt ==>
              var a, answer, s' := s.sessions[id], Answer(s, id, n, offset, now), Next(s, id, n, offset, now);
              && answer.Found? && IsPageOf(answer.page, a.rows, if offset >= 0 then offset else a.offset, n)
              && id in s'.sessions && s'.sessions[id] == a.(offset := answer.page.nextOffset)
  {
    if Answer(s, id, n, offset, now).Found? {
      var a, p := s.sessions[id], Answer(s, id, n, offset, now).page;
      assert forall i :: 0 <= i < |p.rows| ==> p.rows[i] == a.rows[p.offset + i];
    }
  }

  /** A session that was just put holds the first maxRows rows and can be read until its TTL has run out. */
  lemma ReadableForItsTtl<Row>(s: State<Row>, id: Id, rows: seq<Row>, topic: string, now: int, n: int, later: int)
    requires Inv(s) && !IsLive(s.sessions, id, now)
    ensures var s' := Put(s, id, rows, topic, now);
            && (Answer(s', id, n, -1, later).Found? <==> later < now + s.ttl)
            && (later < now + s.ttl ==>
                  var kept := if |rows| <= s.maxRows then rows else rows[..s.maxRows];
                  && IsPageOf(Answer(s', id, n, -1, later).page, kept, 0, n)
                  && s'.sessions[id].topic == topic && (s'.sessions[id].truncated <==> |rows| > s.maxRows))
  {
    PutKeepsInv(s, id, rows, topic, now);
    hide Put, Answer, Next, IsPageOf, Inv, IsLive;
    AnswersTheRequest(Put(s, id, rows, topic, now), id, n, -1, later);
  }
}
