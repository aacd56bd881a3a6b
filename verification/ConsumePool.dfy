/**
 The pool of consumer clients (backend/internal/kafkaconn/consume_pool.go). The table of
 entries is a value here; PoolTable updates it in place, as the program does under the
 pool's lock.
 */
module ConsumePool {
  import opened Basics

  type Key = string
  type Client = nat
  // The identity of an entry, as an address is one.
  type EntryId = nat

  const MAX_ENTRIES := 8
  const IDLE_TTL := 120_000
  const FAR_FUTURE := 0x4000_0000_0000_0000

  // client is None once it has been closed.
  datatype Entry = Entry(client: Option<Client>, conn: string, sig: string, inUse: bool, atStart: bool,
                         resetFailed: bool, lastUsedAt: int)

  // closed counts the calls of Close on each client; created remembers the client every
  // entry was created with.
  datatype Table = Table(pool: map<Key, EntryId>, entries: map<EntryId, Entry>,
                         closed: multiset<Client>, created: map<EntryId, Client>)

  function PoolKey(conn: string, sig: string): (k: Key)
    ensures k != ""
  {
    conn + ['\0'] + sig
  }

  lemma LongerConnection(c: string, s: string, c': string, s': string)
    ensures '\0' !in s && |c| < |c'| ==> PoolKey(c, s) != PoolKey(c', s')
  {
    var k, k' := PoolKey(c, s), PoolKey(c', s');
    assert k'[|c'|] == '\0';
    if |c| < |c'| < |k| {
      assert k[|c'|] == s[|c'| - |c| - 1];
    }
  }

  // Signatures are hexadecimal, so a key names one connection and one signature.
  lemma PoolKeyInjective(c: string, s: string, c': string, s': string)
    requires '\0' !in s && '\0' !in s' && PoolKey(c, s) == PoolKey(c', s')
    ensures c == c' && s == s'
  {
    var k := PoolKey(c, s);
    LongerConnection(c, s, c', s');
    LongerConnection(c', s', c, s);
    assert k[..|c|] == c && k[|c| + 1..] == s;
    assert k[..|c'|] == c' && k[|c'| + 1..] == s';
  }

  function KeyOf(entry: Entry): Key { PoolKey(entry.conn, entry.sig) }

  // --- The lock regions, on values -----------------------------------------------------------

  predicate Rooted(t: Table) { forall k :: k in t.pool ==> t.pool[k] in t.entries }

  predicate Usable(t: Table, k: Key) {
    && k in t.pool && t.pool[k] in t.entries
    && !t.entries[t.pool[k]].inUse && !t.entries[t.pool[k]].resetFailed
  }

  function Acquired(t: Table, k: Key, atStart: bool, now: int): Table
    requires Usable(t, k)
  {
    var e := t.pool[k];
    t.(entries := t.entries[e := t.entries[e].(inUse := true, atStart := atStart, lastUsedAt := now)])
  }

  // closeConsumePoolEntry on the entry in slot k.
  function Close(t: Table, k: Key): Table
    requires k in t.pool && t.pool[k] in t.entries
  {
    var e := t.pool[k];
    var entry := t.entries[e];
    var removed := t.(pool := t.pool - {k});
    if entry.client.None? then removed
    else removed.(entries := t.entries[e := entry.(client := None)], closed := t.closed + multiset{entry.client.value})
  }

  // The same for several slots, one after the other.
  function CloseKeys(t: Table, ks: seq<Key>): (r: Table)
    requires Rooted(t)
    ensures Rooted(r)
  {
    if ks == [] then t
    else
      var before := CloseKeys(t, ks[..|ks| - 1]);
      var k := ks[|ks| - 1];
      if k in before.pool then Close(before, k) else before
  }

  function Replaced(t: Table, conn: string, sig: string, client: Client, now: int, e: EntryId): Table
    requires Rooted(t)
  {
    var k := PoolKey(conn, sig);
    var t' := if k in t.pool then Close(t, k) else t;
    var entry := Entry(Some(client), conn, sig, true, false, false, now);
    t'.(pool := t'.pool[k := e], entries := t'.entries[e := entry], created := t'.created[e := client])
  }

  // The entries eviction may choose from.
  predicate Evictable(t: Table, preserve: Key, k: Key) {
    && k in t.pool && t.pool[k] in t.entries && k != preserve
    && !t.entries[t.pool[k]].inUse && t.entries[t.pool[k]].lastUsedAt < FAR_FUTURE
  }

  ghost predicate IsVictim(t: Table, preserve: Key, k: Key) {
    && Evictable(t, preserve, k)
    && forall x :: Evictable(t, preserve, x) ==> t.entries[t.pool[k]].lastUsedAt <= t.entries[t.pool[x]].lastUsedAt
  }

  // Each of ks is emptied while the pool is too big, and is then a least recently used
  // evictable slot.
  ghost predicate Victims(t: Table, preserve: Key, ks: seq<Key>)
    requires Rooted(t)
  {
    ks == [] ||
    var before := CloseKeys(t, ks[..|ks| - 1]);
    && Victims(t, preserve, ks[..|ks| - 1])
    && |before.pool| > MAX_ENTRIES && IsVictim(before, preserve, ks[|ks| - 1])
  }

  // ks are the slots one eviction empties, in order; it ends when the pool is small enough
  // or nothing evictable is left.
  ghost predicate Evicts(t: Table, preserve: Key, ks: seq<Key>)
    requires Rooted(t)
  {
    Victims(t, preserve, ks) && Settled(CloseKeys(t, ks), preserve)
  }

  ghost predicate Settled(t: Table, preserve: Key) {
    |t.pool| <= MAX_ENTRIES || forall k :: !Evictable(t, preserve, k)
  }

  predicate Expired(t: Table, k: Key, now: int) {
    && k in t.pool && t.pool[k] in t.entries
    && !t.entries[t.pool[k]].inUse && now - t.entries[t.pool[k]].lastUsedAt > IDLE_TTL
  }

  predicate OfConnection(t: Table, k: Key, conn: string) {
    k in t.pool && t.pool[k] in t.entries && t.entries[t.pool[k]].conn == conn
  }

  // --- What every table operation keeps --------------------------------------------------------

  ghost predicate SlotOk(t: Table, k: Key) {
    k in t.pool ==> t.pool[k] in t.entries && KeyOf(t.entries[t.pool[k]]) == k
  }

  ghost predicate InSlot(t: Table, e: EntryId)
    requires e in t.entries
  {
    KeyOf(t.entries[e]) in t.pool && t.pool[KeyOf(t.entries[e])] == e
  }

  // An entry is open exactly while it sits in the slot of its own key, and its client has
  // been closed once when it does not.
  ghost predicate EntryOk(t: Table, e: EntryId) {
    e in t.entries ==>
      && e in t.created
      && (t.entries[e].client.Some? <==> InSlot(t, e))
      && (t.entries[e].client.Some? ==> t.entries[e].client.value == t.created[e])
      && t.closed[t.created[e]] == (if t.entries[e].client.Some? then 0 else 1)
  }

  // No client belongs to two entries, and only clients of the pool are ever closed.
  ghost predicate ClientsOk(t: Table) {
    && t.created.Keys == t.entries.Keys
    && (forall e, e' :: e in t.created && e' in t.created && t.created[e] == t.created[e'] ==> e == e')
    && (forall c :: c in t.closed ==> c in t.created.Values)
  }

  ghost predicate TableOk(t: Table) {
    Rooted(t) && (forall k :: SlotOk(t, k)) && (forall e :: EntryOk(t, e)) && ClientsOk(t)
  }

  // t' differs from t only in entries closed and taken out of their slots.
  ghost predicate OnlyCloses(t: Table, t': Table) {
    && t'.entries.Keys == t.entries.Keys && t'.created == t.created
    && (forall k :: k in t'.pool ==> k in t.pool && t'.pool[k] == t.pool[k])
    && (forall e :: e in t.entries ==> t'.entries[e] == t.entries[e] || t'.entries[e] == t.entries[e].(client := None))
  }

  lemma CloseOk(t: Table, k: Key)
    requires TableOk(t) && k in t.pool
    ensures TableOk(Close(t, k)) && OnlyCloses(t, Close(t, k))
    ensures Close(t, k).pool == t.pool - {k}
  {
    hide PoolKey;
    var t', e := Close(t, k), t.pool[k];
    assert SlotOk(t, k) && EntryOk(t, e) && t.entries[e].client == Some(t.created[e]);
    assert t'.entries[e] == t.entries[e].(client := None) && t'.closed == t.closed + multiset{t.created[e]};
    forall x
      ensures SlotOk(t', x)
    {
      assert SlotOk(t, x);
    }
    forall x
      ensures EntryOk(t', x)
    {
      assert EntryOk(t, x);
      if x in t.entries && x != e {
        assert t.created[x] != t.created[e];
        assert SlotOk(t, KeyOf(t.entries[x]));
      }
    }
  }

  lemma {:induction false} CloseKeysOk(t: Table, ks: seq<Key>)
    requires TableOk(t)
    ensures TableOk(CloseKeys(t, ks)) && OnlyCloses(t, CloseKeys(t, ks))
    ensures forall k :: k in t.pool ==> (k in CloseKeys(t, ks).pool <==> k !in ks)
  {
    hide PoolKey, EntryOk, ClientsOk;
    if ks != [] {
      var init, k := ks[..|ks| - 1], ks[|ks| - 1];
      CloseKeysOk(t, init);
      var before := CloseKeys(t, init);
      assert ks == init + [k];
      assert SlotOk(before, k);
      if k in before.pool {
        CloseOk(before, k);
      }
    }
  }

  lemma CloseKeysAppend(t: Table, ks: seq<Key>, k: Key)
    requires TableOk(t) && k in CloseKeys(t, ks).pool
    ensures TableOk(CloseKeys(t, ks)) && CloseKeys(t, ks + [k]) == Close(CloseKeys(t, ks), k)
    ensures TableOk(Close(CloseKeys(t, ks), k)) && Close(CloseKeys(t, ks), k).pool == CloseKeys(t, ks).pool - {k}
  {
    assert (ks + [k])[..|ks|] == ks;
    hide PoolKey, EntryOk, ClientsOk, SlotOk;
    CloseKeysOk(t, ks);
    CloseOk(CloseKeys(t, ks), k);
  }

  lemma ReplacedOk(t: Table, conn: string, sig: string, client: Client, now: int, e: EntryId)
    requires TableOk(t) && e !in t.entries && client !in t.created.Values
    ensures TableOk(Replaced(t, conn, sig, client, now, e))
  {
    hide PoolKey;
    var k := PoolKey(conn, sig);
    var t1 := if k in t.pool then Close(t, k) else t;
    if k in t.pool {
      CloseOk(t, k);
    }
    FilledOk(t1, conn, sig, client, now, e);
  }

  // What Put's replacement does to the table, beside keeping it consistent.
  ghost predicate FilledFrom(t: Table, t': Table, k: Key, e: EntryId, now: int) {
    && k in t'.pool && t'.pool[k] == e
    && e in t'.entries && t'.entries[e].inUse && t'.entries[e].lastUsedAt == now
    && t'.entries.Keys == t.entries.Keys + {e}
    && (forall x :: x in t.entries ==> t'.entries[x] == t.entries[x] || t'.entries[x] == t.entries[x].(client := None))
    && (forall x :: x != k ==> (x in t'.pool <==> x in t.pool))
    && (forall x :: x != k && x in t'.pool ==> t'.pool[x] == t.pool[x])
  }

  lemma ReplacedFrom(t: Table, conn: string, sig: string, client: Client, now: int, e: EntryId)
    requires Rooted(t) && e !in t.entries
    ensures FilledFrom(t, Replaced(t, conn, sig, client, now, e), PoolKey(conn, sig), e, now)
  {
    hide PoolKey;
  }

  // A fresh entry in an empty slot.
  lemma FilledOk(t: Table, conn: string, sig: string, client: Client, now: int, e: EntryId)
    requires TableOk(t) && e !in t.entries && client !in t.created.Values
    requires PoolKey(conn, sig) !in t.pool
    ensures TableOk(t.(pool := t.pool[PoolKey(conn, sig) := e],
                       entries := t.entries[e := Entry(Some(client), conn, sig, true, false, false, now)],
                       created := t.created[e := client]))
  {
    hide PoolKey;
    var k, entry := PoolKey(conn, sig), Entry(Some(client), conn, sig, true, false, false, now);
    var t' := t.(pool := t.pool[k := e], entries := t.entries[e := entry], created := t.created[e := client]);
    assert KeyOf(entry) == k && client !in t.closed;
    hide ClientsOk;
    forall x
      ensures SlotOk(t', x)
    {
      assert SlotOk(t, x);
    }
    forall x
      ensures EntryOk(t', x)
    {
      assert EntryOk(t, x);
      if x in t.entries {
        assert t.created[x] in t.created.Values && t.created[x] != client;
      }
    }
    FilledClientsOk(t, client, e, t');
  }

  lemma FilledClientsOk(t: Table, client: Client, e: EntryId, t': Table)
    requires ClientsOk(t) && e !in t.entries && client !in t.created.Values
    requires t'.entries.Keys == t.entries.Keys + {e} && t'.created == t.created[e := client] && t'.closed == t.closed
    ensures ClientsOk(t')
  {
    forall c | c in t'.closed
      ensures c in t'.created.Values
    {
      var x :| x in t.created && t.created[x] == c;
      assert t'.created[x] == c;
    }
    forall x, y | x in t'.created && y in t'.created && t'.created[x] == t'.created[y]
      ensures x == y
    {
      assert x in t.created ==> t.created[x] in t.created.Values;
      assert y in t.created ==> t.created[y] in t.created.Values;
    }
  }

  // A slot emptied by eviction was idle and never the preserved one.
  lemma {:induction false} VictimWasIdle(t: Table, preserve: Key, ks: seq<Key>, k: Key)
    requires TableOk(t) && Victims(t, preserve, ks) && k in ks
    ensures k in t.pool && k != preserve && !t.entries[t.pool[k]].inUse
  {
    hide PoolKey, EntryOk, ClientsOk, SlotOk, CloseKeys;
    var init, last := ks[..|ks| - 1], ks[|ks| - 1];
    assert ks == init + [last];
    if k in init {
      VictimWasIdle(t, preserve, init, k);
    } else {
      CloseKeysOk(t, init);
    }
  }

  ghost predicate Bounded(t: Table, k: Key) {
    || |t.pool| <= 8
    || forall x :: x in t.pool && x != k ==> t.pool[x] in t.entries && t.entries[t.pool[x]].inUse
  }

  /** After an eviction the pool has at most eight entries or only busy ones beside the preserved. */
  lemma EvictionSettles(t: Table, preserve: Key, ks: seq<Key>)
    requires TableOk(t) && Evicts(t, preserve, ks) && preserve in t.pool
    requires forall e :: e in t.entries ==> t.entries[e].lastUsedAt < FAR_FUTURE
    ensures var t' := CloseKeys(t, ks);
            preserve in t'.pool && t'.pool[preserve] == t.pool[preserve] && Bounded(t', preserve)
  {
    hide PoolKey, EntryOk, ClientsOk;
    CloseKeysOk(t, ks);
    if preserve in ks {
      VictimWasIdle(t, preserve, ks, preserve);
    }
    var t' := CloseKeys(t, ks);
    forall k | |t'.pool| > MAX_ENTRIES && k in t'.pool && k != preserve
      ensures t'.pool[k] in t'.entries && t'.entries[t'.pool[k]].inUse
    {
      assert SlotOk(t', k) && !Evictable(t', preserve, k);
    }
  }
}
