/**
 Requests that use the pool concurrently (backend/internal/kafkaconn/messages.go and
 consume_pool.go).  Each lock region is one atomic step; the writes consumePoolRelease does
 before it takes the lock are steps of their own.
 */
module PoolRuns {
  import opened Basics
  import opened ConsumePool

  type RequestId = nat

  // The writes of consumePoolRelease in program order, then its lock region.
  datatype Stage = MarkUnhealthy | ClearInUse | StampTime | Sweep

  datatype Pc =
    | Resetting(entry: EntryId)
    | Opening
    | Scanning(entry: EntryId)
    | Releasing(entry: EntryId, stage: Stage, healthy: bool, retry: bool)
    | Finished

  datatype Request = Request(conn: string, sig: string, pc: Pc)

  datatype System = System(table: Table, requests: map<RequestId, Request>)

  datatype Step =
    | Acquire(r: RequestId, conn: string, sig: string, atStart: bool, now: int)
    | ResetDone(r: RequestId, ok: bool)
    | OpenFailed(r: RequestId)
    | Put(r: RequestId, client: Client, now: int, entry: EntryId, victims: seq<Key>)
    | ScanDone(r: RequestId, healthy: bool)
    | Release(r: RequestId, now: int, expired: seq<Key>)
    | CloseFor(conn: string, slots: seq<Key>)
    | CloseAll(slots: seq<Key>)

  const EMPTY := System(Table(map[], map[], multiset{}, map[]), map[])

  // The entry a request owns: it has been granted and inUse has not been cleared yet.
  function Held(pc: Pc): Option<EntryId> {
    match pc
    case Resetting(e) => Some(e)
    case Scanning(e) => Some(e)
    case Releasing(e, stage, _, _) => if stage.MarkUnhealthy? || stage.ClearInUse? then Some(e) else None
    case _ => None
  }

  ghost predicate Holds(q: map<RequestId, Request>, r: RequestId, e: EntryId) {
    r in q && Held(q[r].pc) == Some(e)
  }

  ghost predicate Enabled(s: System, a: Step) {
    Rooted(s.table) &&
    match a
    case Acquire(r, _, _, _, _) => r !in s.requests
    case ResetDone(r, _) => r in s.requests && s.requests[r].pc.Resetting? && s.requests[r].pc.entry in s.table.entries
    case OpenFailed(r) => r in s.requests && s.requests[r].pc.Opening?
    case Put(r, c, now, e, victims) =>
      && r in s.requests && s.requests[r].pc.Opening?
      // A newly opened client and a newly allocated entry.
      && e !in s.table.entries && c !in s.table.created.Values
      && var q := s.requests[r];
         Rooted(Replaced(s.table, q.conn, q.sig, c, now, e)) &&
         Evicts(Replaced(s.table, q.conn, q.sig, c, now, e), PoolKey(q.conn, q.sig), victims)
    case ScanDone(r, _) => r in s.requests && s.requests[r].pc.Scanning?
    case Release(r, now, ks) =>
      && r in s.requests && s.requests[r].pc.Releasing? && s.requests[r].pc.entry in s.table.entries
      && (s.requests[r].pc.stage.Sweep? ==> forall k :: k in ks <==> Expired(s.table, k, now))
    case CloseFor(conn, ks) => forall k :: k in ks <==> OfConnection(s.table, k, conn)
    case CloseAll(ks) => forall k :: k in ks <==> k in s.table.pool
  }

  function SetEntry(t: Table, e: EntryId, entry: Entry): Table { t.(entries := t.entries[e := entry]) }

  ghost function NextRelease(s: System, r: RequestId, now: int, ks: seq<Key>): System
    requires Enabled(s, Release(r, now, ks))
  {
    var t, q := s.table, s.requests[r];
    var e, entry := q.pc.entry, t.entries[q.pc.entry];
    match q.pc.stage
    case MarkUnhealthy =>
      System(SetEntry(t, e, if q.pc.healthy then entry else entry.(resetFailed := true)),
             s.requests[r := q.(pc := q.pc.(stage := ClearInUse))])
    case ClearInUse =>
      System(SetEntry(t, e, entry.(inUse := false)), s.requests[r := q.(pc := q.pc.(stage := StampTime))])
    case StampTime =>
      System(SetEntry(t, e, entry.(lastUsedAt := now)), s.requests[r := q.(pc := q.pc.(stage := Sweep))])
    case Sweep =>
      System(CloseKeys(t, ks), s.requests[r := q.(pc := if q.pc.retry then Opening else Finished)])
  }

  ghost function Next(s: System, a: Step): System
    requires Enabled(s, a)
  {
    var t := s.table;
    match a
    case Acquire(r, conn, sig, atStart, now) =>
      var k := PoolKey(conn, sig);
      if Usable(t, k)
      then System(Acquired(t, k, atStart, now), s.requests[r := Request(conn, sig, Resetting(t.pool[k]))])
      else s.(requests := s.requests[r := Request(conn, sig, Opening)])
    case ResetDone(r, ok) =>
      var q := s.requests[r];
      // A failed reset gives the entry back as unhealthy and opens a new client.  After a
      // successful one the client is read from the entry; a concurrent close leaves none.
      var pc := if !ok then Releasing(q.pc.entry, MarkUnhealthy, false, true)
                else if t.entries[q.pc.entry].client.None? then Opening
                else Scanning(q.pc.entry);
      s.(requests := s.requests[r := q.(pc := pc)])
    case OpenFailed(r) => s.(requests := s.requests[r := s.requests[r].(pc := Finished)])
    case Put(r, c, now, e, victims) =>
      var q := s.requests[r];
      System(CloseKeys(Replaced(t, q.conn, q.sig, c, now, e), victims), s.requests[r := q.(pc := Scanning(e))])
    case ScanDone(r, healthy) =>
      var q := s.requests[r];
      s.(requests := s.requests[r := q.(pc := Releasing(q.pc.entry, MarkUnhealthy, healthy, false))])
    case Release(r, now, ks) => NextRelease(s, r, now, ks)
    case CloseFor(_, ks) => s.(table := CloseKeys(t, ks))
    case CloseAll(ks) => s.(table := CloseKeys(t, ks))
  }

  ghost predicate IsRun(run: seq<Step>)
    decreases |run|, 0
  {
    run == [] || (IsRun(run[..|run| - 1]) && Enabled(After(run[..|run| - 1]), run[|run| - 1]))
  }

  ghost function After(run: seq<Step>): System
    requires IsRun(run)
    decreases |run|, 1
  {
    if run == [] then EMPTY else Next(After(run[..|run| - 1]), run[|run| - 1])
  }

  // --- The invariant -------------------------------------------------------------------------

  // The entry a request works with, held or not.
  function Working(pc: Pc): Option<EntryId> {
    match pc
    case Resetting(e) => Some(e)
    case Scanning(e) => Some(e)
    case Releasing(e, _, _, _) => Some(e)
    case _ => None
  }

  ghost predicate Known(q: map<RequestId, Request>, t: Table) {
    forall r :: r in q && Working(q[r].pc).Some? ==> Working(q[r].pc).value in t.entries
  }

  // Held entries are marked.
  ghost predicate Marked(q: map<RequestId, Request>, t: Table) {
    forall r, e :: Holds(q, r, e) ==> e in t.entries && t.entries[e].inUse
  }

  ghost predicate Exclusive(q: map<RequestId, Request>) {
    forall r, r', e :: Holds(q, r, e) && Holds(q, r', e) ==> r == r'
  }

  // A marked entry in the pool has a holder.
  ghost predicate Backed(q: map<RequestId, Request>, t: Table) {
    forall k :: k in t.pool && t.pool[k] in t.entries && t.entries[t.pool[k]].inUse ==>
      exists r :: Holds(q, r, t.pool[k])
  }

  ghost predicate Inv(s: System) {
    && TableOk(s.table) && Known(s.requests, s.table)
    && Marked(s.requests, s.table) && Exclusive(s.requests) && Backed(s.requests, s.table)
  }

  // Requests keep what they hold, and in-use flags of surviving slots do not change.
  lemma CloseKeepsInv(s: System, ks: seq<Key>)
    requires Inv(s)
    ensures Inv(s.(table := CloseKeys(s.table, ks)))
  {
    assert Rooted(s.table);
    hide PoolKey, CloseKeys, TableOk, EntryOk, SlotOk, ClientsOk;
    CloseKeysOk(s.table, ks);
    hide Held, Working, Holds;
  }

  // Changing flags or times of an entry does not touch its client.
  lemma SetEntryOk(t: Table, e: EntryId, entry: Entry)
    requires TableOk(t) && e in t.entries
    requires entry.client == t.entries[e].client && entry.conn == t.entries[e].conn && entry.sig == t.entries[e].sig
    ensures TableOk(SetEntry(t, e, entry))
  {
    hide PoolKey;
    var t' := SetEntry(t, e, entry);
    forall k ensures SlotOk(t', k) { assert SlotOk(t, k); }
    forall x ensures EntryOk(t', x) { assert EntryOk(t, x); }
  }

  // Only r moves; nobody else's hold changes.
  lemma OthersHold(s: System, s': System, r: RequestId)
    requires forall x :: x != r ==> (x in s.requests <==> x in s'.requests)
    requires forall x :: x != r && x in s.requests ==> s.requests[x] == s'.requests[x]
    ensures forall x, e :: x != r ==> (Holds(s.requests, x, e) <==> Holds(s'.requests, x, e))
  {
  }

  lemma AcquireKeepsInv(s: System, a: Step)
    requires Inv(s) && a.Acquire? && Enabled(s, a)
    ensures Inv(Next(s, a))
  {
    hide PoolKey, TableOk, EntryOk, SlotOk, ClientsOk;
    var s', k := Next(s, a), PoolKey(a.conn, a.sig);
    OthersHold(s, s', a.r);
    assert forall e :: !Holds(s.requests, a.r, e);
    if Usable(s.table, k) {
      var e := s.table.pool[k];
      SetEntryOk(s.table, e, s'.table.entries[e]);
      assert Holds(s'.requests, a.r, e);
    }
  }

  lemma ResetKeepsInv(s: System, a: Step)
    requires Inv(s) && a.ResetDone? && Enabled(s, a)
    ensures Inv(Next(s, a))
  {
    var e := s.requests[a.r].pc.entry;
    assert Holds(s.requests, a.r, e);
    if s.table.entries[e].client.None? {
      forall k | k in s.table.pool
        ensures s.table.pool[k] != e
      {
        assert SlotOk(s.table, k) && EntryOk(s.table, e);
      }
    }
    hide PoolKey, TableOk, EntryOk, SlotOk, ClientsOk;
    var s' := Next(s, a);
    OthersHold(s, s', a.r);
    assert forall x :: Holds(s.requests, a.r, x) <==> x == e;
    assert s'.requests[a.r].pc != Opening ==> Holds(s'.requests, a.r, e);
  }

  // The table once the new entry sits in its slot, before eviction.
  ghost function Filled(s: System, a: Step): Table
    requires a.Put? && Enabled(s, a)
  {
    Replaced(s.table, s.requests[a.r].conn, s.requests[a.r].sig, a.client, a.now, a.entry)
  }

  ghost function PutKey(s: System, a: Step): Key
    requires a.Put? && a.r in s.requests
  {
    PoolKey(s.requests[a.r].conn, s.requests[a.r].sig)
  }

  lemma FilledFacts(s: System, a: Step)
    requires TableOk(s.table) && a.Put? && Enabled(s, a)
    ensures TableOk(Filled(s, a)) && FilledFrom(s.table, Filled(s, a), PutKey(s, a), a.entry, a.now)
    ensures Next(s, a).table == CloseKeys(Filled(s, a), a.victims) && Evicts(Filled(s, a), PutKey(s, a), a.victims)
  {
    var q := s.requests[a.r];
    ReplacedOk(s.table, q.conn, q.sig, a.client, a.now, a.entry);
    ReplacedFrom(s.table, q.conn, q.sig, a.client, a.now, a.entry);
    hide PoolKey, EntryOk, SlotOk, ClientsOk, Evicts, CloseKeys, TableOk, FilledFrom, Replaced;
  }

  // Granting a new entry to a request that holds nothing.
  lemma GrantNew(q: map<RequestId, Request>, t: Table, q': map<RequestId, Request>, t': Table, r: RequestId,
                 e: EntryId, k: Key)
    requires Marked(q, t) && Exclusive(q) && Backed(q, t) && e !in t.entries
    requires forall x, y :: x != r ==> (Holds(q, x, y) <==> Holds(q', x, y))
    requires forall y :: Holds(q', r, y) <==> y == e
    requires forall x :: x in t.entries ==> x in t'.entries && t'.entries[x].inUse == t.entries[x].inUse
    requires e in t'.entries && t'.entries[e].inUse && k in t'.pool && t'.pool[k] == e
    requires Rooted(t) && forall x :: x in t'.pool && x != k ==> x in t.pool && t'.pool[x] == t.pool[x]
    requires forall y :: !Holds(q, r, y)
    ensures Marked(q', t') && Exclusive(q') && Backed(q', t')
  {
    hide Holds;
    forall x | x in t'.pool && t'.pool[x] in t'.entries && t'.entries[t'.pool[x]].inUse
      ensures exists y :: Holds(q', y, t'.pool[x])
    {
      if x == k {
        assert Holds(q', r, e);
      } else {
        var y :| Holds(q, y, t.pool[x]);
        assert y != r && Holds(q', y, t.pool[x]);
      }
    }
  }

  lemma PutKeepsInv(s: System, a: Step)
    requires Inv(s) && a.Put? && Enabled(s, a)
    ensures Inv(Next(s, a))
  {
    var t, q' := Filled(s, a), Next(s, a).requests;
    FilledFacts(s, a);
    PutGrants(s, a);
    hide PoolKey, EntryOk, SlotOk, ClientsOk, CloseKeys, Evicts, Replaced, Filled, Held, Enabled, PutKey, Next;
    GrantNew(s.requests, s.table, q', t, a.r, a.entry, PutKey(s, a));
    CloseKeepsInv(System(t, q'), a.victims);
  }

  lemma PutGrants(s: System, a: Step)
    requires a.Put? && Enabled(s, a)
    ensures var q, q' := s.requests, Next(s, a).requests;
            && a.r in q && q' == q[a.r := q'[a.r]] && Held(q[a.r].pc) == None
            && Held(q'[a.r].pc) == Working(q'[a.r].pc) == Some(a.entry)
  {
    hide PoolKey, CloseKeys, Evicts, Replaced;
  }

  // A request goes on with its entry and keeps its hold, if it has one.
  lemma StageKeepsInv(s: System, r: RequestId, e: EntryId, entry: Entry, pc: Pc)
    requires Inv(s) && r in s.requests && e in s.table.entries
    requires Working(s.requests[r].pc) == Some(e) == Working(pc) && Held(pc) == Held(s.requests[r].pc)
    requires entry == s.table.entries[e].(resetFailed := entry.resetFailed, lastUsedAt := entry.lastUsedAt)
    ensures Inv(System(SetEntry(s.table, e, entry), s.requests[r := s.requests[r].(pc := pc)]))
  {
    hide PoolKey, TableOk, EntryOk, SlotOk, ClientsOk;
    var s' := System(SetEntry(s.table, e, entry), s.requests[r := s.requests[r].(pc := pc)]);
    SetEntryOk(s.table, e, entry);
    assert forall x, y :: Holds(s.requests, x, y) <==> Holds(s'.requests, x, y);
    hide Holds, Held;
  }

  // A request gives its entry up: it was the only one to hold it.
  lemma DropKeepsInv(s: System, r: RequestId, e: EntryId, pc: Pc)
    requires Inv(s) && r in s.requests && e in s.table.entries
    requires Held(s.requests[r].pc) == Some(e) && Held(pc) == None && Working(pc) == Some(e)
    ensures Inv(System(SetEntry(s.table, e, s.table.entries[e].(inUse := false)),
                       s.requests[r := s.requests[r].(pc := pc)]))
  {
    hide PoolKey, TableOk, EntryOk, SlotOk, ClientsOk;
    var entry := s.table.entries[e].(inUse := false);
    var s' := System(SetEntry(s.table, e, entry), s.requests[r := s.requests[r].(pc := pc)]);
    SetEntryOk(s.table, e, entry);
    assert Holds(s.requests, r, e);
    OthersHold(s, s', r);
    assert forall y :: Holds(s.requests, r, y) <==> y == e;
    assert forall y :: !Holds(s'.requests, r, y);
    hide Holds, Held;
  }

  lemma ReleaseKeepsInv(s: System, a: Step)
    requires Inv(s) && a.Release? && Enabled(s, a)
    ensures Inv(Next(s, a))
  {
    hide PoolKey, TableOk, EntryOk, SlotOk, ClientsOk, CloseKeys, Inv;
    var pc := s.requests[a.r].pc;
    var e, entry := pc.entry, s.table.entries[pc.entry];
    match pc.stage {
      case MarkUnhealthy =>
        var marked := if pc.healthy then entry else entry.(resetFailed := true);
        StageKeepsInv(s, a.r, e, marked, pc.(stage := ClearInUse));
      case ClearInUse => DropKeepsInv(s, a.r, e, pc.(stage := StampTime));
      case StampTime => StageKeepsInv(s, a.r, e, entry.(lastUsedAt := a.now), pc.(stage := Sweep));
      case Sweep => SweepKeepsInv(s, a);
    }
  }

  lemma SweepKeepsInv(s: System, a: Step)
    requires Inv(s) && a.Release? && Enabled(s, a) && s.requests[a.r].pc.stage.Sweep?
    ensures Inv(Next(s, a))
  {
    hide PoolKey, TableOk, EntryOk, SlotOk, ClientsOk, CloseKeys;
    var mid := s.(requests := Next(s, a).requests);
    OthersHold(s, mid, a.r);
    assert forall r, x :: Holds(s.requests, r, x) <==> Holds(mid.requests, r, x);
    CloseKeepsInv(mid, a.expired);
  }

  lemma StepKeepsInv(s: System, a: Step)
    requires Inv(s) && Enabled(s, a)
    ensures Inv(Next(s, a))
  {
    match a {
      case Acquire(_, _, _, _, _) => AcquireKeepsInv(s, a);
      case ResetDone(_, _) => ResetKeepsInv(s, a);
      case Put(_, _, _, _, _) => PutKeepsInv(s, a);
      case Release(_, _, _) => ReleaseKeepsInv(s, a);
      case CloseFor(_, ks) => CloseKeepsInv(s, ks);
      case CloseAll(ks) => CloseKeepsInv(s, ks);
      case OpenFailed(r) => PcMoves(s, a, r);
      case ScanDone(r, _) => PcMoves(s, a, r);
    }
  }

  lemma PcMoves(s: System, a: Step, r: RequestId)
    requires Inv(s) && Enabled(s, a) && ((a.OpenFailed? && a.r == r) || (a.ScanDone? && a.r == r))
    ensures Inv(Next(s, a))
  {
    hide PoolKey, TableOk;
    var s' := Next(s, a);
    OthersHold(s, s', r);
    assert forall x, e :: Holds(s.requests, x, e) <==> Holds(s'.requests, x, e);
  }

  lemma {:induction false} RunKeepsInv(run: seq<Step>)
    requires IsRun(run)
    ensures Inv(After(run))
  {
    if run != [] {
      RunKeepsInv(run[..|run| - 1]);
      StepKeepsInv(After(run[..|run| - 1]), run[|run| - 1]);
    }
  }

  // --- What holds in every run -----------------------------------------------------------------

  /** An entry is granted to at most one request at a time. */
  lemma GrantsAreExclusive(run: seq<Step>, r: RequestId, r': RequestId, e: EntryId)
    requires IsRun(run) && Holds(After(run).requests, r, e) && Holds(After(run).requests, r', e)
    ensures r == r'
  {
    RunKeepsInv(run);
  }

  /**
   Every client the pool ever took is open in exactly one slot or has been closed exactly
   once: no leak and no double close.
   */
  lemma EveryClientIsAccountedFor(run: seq<Step>, e: EntryId)
    requires IsRun(run) && e in After(run).table.created
    ensures var t := After(run).table;
            && e in t.entries && t.closed[t.created[e]] <= 1
            && (t.closed[t.created[e]] == 0 <==> exists k :: k in t.pool && t.pool[k] == e)
            && (t.closed[t.created[e]] == 0 <==> t.entries[e].client == Some(t.created[e]))
            && (forall k, k' :: k in t.pool && k' in t.pool && t.pool[k] == e && t.pool[k'] == e ==> k == k')
  {
    RunKeepsInv(run);
    hide PoolKey;
    var t := After(run).table;
    assert EntryOk(t, e);
    forall k | k in t.pool && t.pool[k] == e
      ensures k == KeyOf(t.entries[e])
    {
      assert SlotOk(t, k);
    }
    if t.entries[e].client.Some? {
      assert KeyOf(t.entries[e]) in t.pool;
    }
  }

  // The step closes the client of entry e.
  ghost predicate Closes(s: System, a: Step, e: EntryId) {
    && Enabled(s, a) && e in s.table.entries && s.table.entries[e].client.Some?
    && (e in Next(s, a).table.entries ==> Next(s, a).table.entries[e].client.None?)
  }

  // What one request's Put does to the entry already in its slot.
  ghost predicate ReplacesEntry(s: System, a: Step, e: EntryId) {
    && a.Put? && a.r in s.requests && e in s.table.entries
    && PoolKey(s.requests[a.r].conn, s.requests[a.r].sig) == KeyOf(s.table.entries[e])
  }

  /** A held client is closed only by a Put to the same slot, a disconnect, or a close of all. */
  lemma WhoClosesAHeldClient(run: seq<Step>, a: Step, r: RequestId, e: EntryId)
    requires IsRun(run) && Holds(After(run).requests, r, e) && Closes(After(run), a, e)
    ensures || ReplacesEntry(After(run), a, e)
            || (a.CloseFor? && After(run).table.entries[e].conn == a.conn)
            || a.CloseAll?
  {
    RunKeepsInv(run);
    var s := After(run);
    var t, k := s.table, KeyOf(s.table.entries[e]);
    assert EntryOk(t, e) && k in t.pool && t.pool[k] == e && t.entries[e].inUse;
    hide PoolKey, CloseKeys, TableOk, EntryOk, SlotOk, ClientsOk, Evicts;
    match a {
      case Release(_, now, ks) =>
        if s.requests[a.r].pc.stage.Sweep? {
          StaysOpen(t, ks, k);
        }
      case CloseFor(conn, ks) =>
        if t.entries[e].conn != conn {
          StaysOpen(t, ks, k);
        }
      case Put(_, _, _, _, _) =>
        if !ReplacesEntry(s, a, e) {
          PutKeepsOthers(s, a, k);
        }
      case _ =>
    }
  }

  // A slot that is not among those emptied keeps its entry, which stays open.
  lemma StaysOpen(t: Table, ks: seq<Key>, k: Key)
    requires TableOk(t) && k in t.pool && k !in ks
    ensures k in CloseKeys(t, ks).pool && CloseKeys(t, ks).pool[k] == t.pool[k]
    ensures t.pool[k] in CloseKeys(t, ks).entries && CloseKeys(t, ks).entries[t.pool[k]].client.Some?
  {
    hide PoolKey, CloseKeys;
    CloseKeysOk(t, ks);
    var t' := CloseKeys(t, ks);
    assert SlotOk(t', k) && EntryOk(t', t'.pool[k]);
  }

  // A Put to another slot leaves an entry in use open.
  lemma PutKeepsOthers(s: System, a: Step, k: Key)
    requires Inv(s) && a.Put? && Enabled(s, a) && k in s.table.pool && s.table.pool[k] in s.table.entries
    requires s.table.entries[s.table.pool[k]].inUse && k != PoolKey(s.requests[a.r].conn, s.requests[a.r].sig)
    ensures s.table.pool[k] in Next(s, a).table.entries
    ensures Next(s, a).table.entries[s.table.pool[k]].client.Some?
  {
    var t := Filled(s, a);
    FilledFacts(s, a);
    hide PoolKey, CloseKeys, EntryOk, SlotOk, ClientsOk, Evicts, Filled;
    CloseKeysOk(t, a.victims);
    if k in a.victims {
      VictimWasIdle(t, PutKey(s, a), a.victims, k);
    }
    StaysOpen(t, a.victims, k);
  }

  lemma PutClosesItsSlot(s: System, a: Step)
    requires Inv(s) && a.Put? && Enabled(s, a) && PutKey(s, a) in s.table.pool
    ensures s.table.pool[PutKey(s, a)] in s.table.entries && Closes(s, a, s.table.pool[PutKey(s, a)])
  {
    var q := s.requests[a.r];
    var t, e := s.table, s.table.pool[PutKey(s, a)];
    assert SlotOk(t, PutKey(s, a)) && EntryOk(t, e) && t.entries[e].client.Some?;
    ReplacedOk(t, q.conn, q.sig, a.client, a.now, a.entry);
    assert Filled(s, a).entries[e].client.None?;
    hide PoolKey, CloseKeys, TableOk, EntryOk, SlotOk, ClientsOk, Evicts, Replaced;
    CloseKeysOk(Filled(s, a), a.victims);
  }

  /**
   The comment that a held client is never closed does not hold: a Put closes the client of
   a request still using it exactly when the slot holds an entry in use.
   */
  lemma PutClosesAHeldClientIff(run: seq<Step>, a: Step)
    requires IsRun(run) && a.Put? && Enabled(After(run), a)
    ensures var s, k := After(run), PoolKey(After(run).requests[a.r].conn, After(run).requests[a.r].sig);
            (exists r, e :: Holds(s.requests, r, e) && Closes(s, a, e)) <==>
            (k in s.table.pool && s.table.entries[s.table.pool[k]].inUse)
  {
    RunKeepsInv(run);
    var s := After(run);
    var q := s.requests[a.r];
    var t, k := s.table, PoolKey(q.conn, q.sig);
    hide PoolKey, CloseKeys, TableOk, SlotOk, ClientsOk, Evicts, Closes;
    if k in t.pool && t.entries[t.pool[k]].inUse {
      var r :| Holds(s.requests, r, t.pool[k]);
      PutClosesItsSlot(s, a);
      assert Holds(s.requests, r, t.pool[k]) && Closes(s, a, t.pool[k]);
    }
    if r, e :| Holds(s.requests, r, e) && Closes(s, a, e) {
      WhoClosesAHeldClient(run, a, r, e);
      assert EntryOk(t, e);
    }
  }

  lemma OneMoreStep(run: seq<Step>, a: Step)
    requires IsRun(run) && Enabled(After(run), a)
    ensures IsRun(run + [a]) && After(run + [a]) == Next(After(run), a)
  {
    hide Enabled, Next;
    assert (run + [a])[..|run|] == run;
  }

  // The first request opens a client and scans with it.
  lemma FirstScans() returns (run: seq<Step>)
    ensures IsRun(run)
    ensures var s := After(run);
            && s.table == Replaced(EMPTY.table, "c", "s", 10, 0, 0) && s.table.pool == map[PoolKey("c", "s") := 0]
            && s.requests == map[0 := Request("c", "s", Scanning(0))]
  {
    assert IsRun([]) && After([]) == EMPTY;
    OneMoreStep([], Acquire(0, "c", "s", true, 0));
    run := [] + [Acquire(0, "c", "s", true, 0)];
    OneMoreStep(run, Put(0, 10, 0, 0, []));
    run := run + [Put(0, 10, 0, 0, [])];
    hide After, IsRun;
  }

  /** A run in which the second request closes the client the first one is scanning with. */
  lemma SomeRunClosesAHeldClient() returns (run: seq<Step>, a: Step)
    ensures IsRun(run) && Holds(After(run).requests, 0, 0) && Closes(After(run), a, 0)
  {
    run := FirstScans();
    var second := Acquire(1, "c", "s", true, 1);
    var s := After(run);
    OneMoreStep(run, second);
    run := run + [second];
    hide After, IsRun;
    assert After(run) == s.(requests := s.requests[1 := Request("c", "s", Opening)]);
    a := Put(1, 11, 1, 1, []);
    SecondPutCloses(After(run), a);
  }

  lemma SecondPutCloses(s: System, a: Step)
    requires s.table == Replaced(EMPTY.table, "c", "s", 10, 0, 0) && s.table.pool == map[PoolKey("c", "s") := 0]
    requires a == Put(1, 11, 1, 1, []) && 1 in s.requests && s.requests[1] == Request("c", "s", Opening)
    ensures Closes(s, a, 0)
  {
    hide PoolKey;
    assert Replaced(s.table, "c", "s", 11, 1, 1).pool == map[PoolKey("c", "s") := 1];
  }

  lemma PutSettles(s: System, a: Step)
    requires TableOk(s.table) && a.Put? && Enabled(s, a) && a.now < FAR_FUTURE
    requires forall e :: e in s.table.entries ==> s.table.entries[e].lastUsedAt < FAR_FUTURE
    ensures var t := Next(s, a).table;
            PutKey(s, a) in t.pool && t.pool[PutKey(s, a)] == a.entry && Bounded(t, PutKey(s, a))
  {
    FilledFacts(s, a);
    var t, k := Filled(s, a), PutKey(s, a);
    hide Enabled, Next, PutKey, Filled, PoolKey, CloseKeys, TableOk, Evicts, Bounded;
    EvictionSettles(t, k, a.victims);
  }

  /** After every Put the pool has at most eight entries or every other entry is in use. */
  lemma PutBoundsThePool(run: seq<Step>, a: Step)
    requires IsRun(run) && a.Put? && Enabled(After(run), a)
    requires a.now < FAR_FUTURE
    requires forall e :: e in After(run).table.entries ==> After(run).table.entries[e].lastUsedAt < FAR_FUTURE
    ensures var s := After(run);
            var t := Next(s, a).table;
            PutKey(s, a) in t.pool && t.pool[PutKey(s, a)] == a.entry && Bounded(t, PutKey(s, a))
  {
    RunKeepsInv(run);
    PutSettles(After(run), a);
  }
}
