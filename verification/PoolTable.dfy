/** The pool as the service keeps it: maps that every lock region updates in place. */
module PoolTable {
  import opened Basics
  import opened ConsumePool

  class Service {
    var consumePool: map<Key, EntryId>
    // The entries' memory, and what has been done to the clients.
    var entries: map<EntryId, Entry>
    var closed: multiset<Client>
    var created: map<EntryId, Client>

    function State(): Table
      reads this
    {
      Table(consumePool, entries, closed, created)
    }

    constructor ()
      ensures State() == Table(map[], map[], multiset{}, map[])
    {
      consumePool, entries, closed, created := map[], map[], multiset{}, map[];
    }

    method Acquire(conn: string, sig: string, atStart: bool, now: int) returns (entry: Option<EntryId>, reusable: bool)
      requires Rooted(State())
      modifies this
      ensures reusable == Usable(old(State()), PoolKey(conn, sig))
      ensures State() == if reusable then Acquired(old(State()), PoolKey(conn, sig), atStart, now) else old(State())
      ensures entry == if PoolKey(conn, sig) in consumePool then Some(consumePool[PoolKey(conn, sig)]) else None
    {
      var key := PoolKey(conn, sig);
      if key !in consumePool { return None, false; }
      var e := consumePool[key];
      if entries[e].inUse || entries[e].resetFailed { return Some(e), false; }
      entries := entries[e := entries[e].(inUse := true, atStart := atStart, lastUsedAt := now)];
      return Some(e), true;
    }

    method CloseEntry(e: EntryId, key: Key)
      requires key in consumePool && consumePool[key] == e && e in entries
      modifies this
      ensures State() == Close(old(State()), key)
    {
      if key in consumePool && consumePool[key] == e {
        consumePool := consumePool - {key};
      }
      if entries[e].client.Some? {
        closed := closed + multiset{entries[e].client.value};
        entries := entries[e := entries[e].(client := None)];
      }
    }

    method Put(conn: string, sig: string, client: Client, now: int, e: EntryId) returns (ghost victims: seq<Key>)
      requires TableOk(State()) && e !in entries && client !in created.Values
      modifies this
      ensures Rooted(old(State()))
      ensures TableOk(State())
      ensures var t := Replaced(old(State()), conn, sig, client, now, e);
              Rooted(t) && Evicts(t, PoolKey(conn, sig), victims) && State() == CloseKeys(t, victims)
    {
      hide TableOk;
      var key := PoolKey(conn, sig);
      ReplacedOk(State(), conn, sig, client, now, e);
      RootedTable(State());
      if key in consumePool {
        CloseEntry(consumePool[key], key);
      }
      entries := entries[e := Entry(Some(client), conn, sig, true, false, false, now)];
      created := created[e := client];
      consumePool := consumePool[key := e];
      victims := Evict(key);
    }

    lemma RootedTable(t: Table)
      requires TableOk(t)
      ensures Rooted(t) && "" !in t.pool
    {
      assert SlotOk(t, "");
    }

    // The oldest idle slot other than the preserved one, if there is any; the order in which
    // the map is walked is arbitrary.
    method Oldest(preserve: Key) returns (oldestKey: Key)
      requires Rooted(State()) && "" !in consumePool
      ensures oldestKey == "" ==> forall k :: !Evictable(State(), preserve, k)
      ensures oldestKey != "" ==> IsVictim(State(), preserve, oldestKey)
    {
      oldestKey := "";
      var oldestAt := FAR_FUTURE;
      var todo := consumePool.Keys;
      while todo != {}
        invariant todo <= consumePool.Keys
        invariant oldestKey == "" ==> oldestAt == FAR_FUTURE
        invariant oldestKey != "" ==>
                    && Evictable(State(), preserve, oldestKey) && oldestAt == entries[consumePool[oldestKey]].lastUsedAt
        invariant forall k :: Evictable(State(), preserve, k) && k !in todo ==>
                    oldestKey != "" && oldestAt <= entries[consumePool[k]].lastUsedAt
        decreases todo
      {
        var key :| key in todo;
        todo := todo - {key};
        var entry := entries[consumePool[key]];
        if key != preserve && !entry.inUse && entry.lastUsedAt < oldestAt {
          oldestAt, oldestKey := entry.lastUsedAt, key;
        }
      }
    }

    method Evict(preserve: Key) returns (ghost victims: seq<Key>)
      requires TableOk(State())
      modifies this
      ensures Rooted(old(State())) && Evicts(old(State()), preserve, victims)
      ensures State() == CloseKeys(old(State()), victims)
      ensures TableOk(State())
    {
      RootedTable(State());
      ghost var start := State();
      victims := [];
      while |consumePool| > MAX_ENTRIES
        invariant Rooted(start) && TableOk(State()) && Rooted(State()) && State() == CloseKeys(start, victims)
        invariant TableOk(start) && Victims(start, preserve, victims)
        decreases |consumePool|
      {
        hide TableOk, CloseKeys, Victims;
        RootedTable(State());
        var oldestKey := Oldest(preserve);
        if oldestKey == "" {
          assert State() == CloseKeys(start, victims);
          assert forall k :: !Evictable(State(), preserve, k);
          assert Settled(State(), preserve);
          return;
        }
        CloseKeysAppend(start, victims, oldestKey);
        VictimAppend(start, preserve, victims, oldestKey);
        CloseEntry(consumePool[oldestKey], oldestKey);
        victims := victims + [oldestKey];
      }
    }

    lemma VictimAppend(t: Table, preserve: Key, ks: seq<Key>, k: Key)
      requires Rooted(t) && Victims(t, preserve, ks)
      requires |CloseKeys(t, ks).pool| > MAX_ENTRIES && IsVictim(CloseKeys(t, ks), preserve, k)
      ensures Victims(t, preserve, ks + [k])
    {
      assert (ks + [k])[..|ks|] == ks;
      hide CloseKeys, IsVictim;
    }

    // The two unlocked halves of consumePoolRelease: its writes, one by one, then the sweep.
    method MarkUnhealthy(e: EntryId)
      requires e in entries
      modifies `entries
      ensures entries == old(entries)[e := old(entries)[e].(resetFailed := true)]
    {
      entries := entries[e := entries[e].(resetFailed := true)];
    }

    method ClearInUse(e: EntryId)
      requires e in entries
      modifies `entries
      ensures entries == old(entries)[e := old(entries)[e].(inUse := false)]
    {
      entries := entries[e := entries[e].(inUse := false)];
    }

    method StampTime(e: EntryId, now: int)
      requires e in entries
      modifies `entries
      ensures entries == old(entries)[e := old(entries)[e].(lastUsedAt := now)]
    {
      entries := entries[e := entries[e].(lastUsedAt := now)];
    }

    // Closes the slots of `slots` one by one, in arbitrary order.
    method CloseSlots(slots: set<Key>) returns (ghost ks: seq<Key>)
      requires TableOk(State()) && slots <= consumePool.Keys
      modifies this
      ensures Rooted(old(State())) && TableOk(State())
      ensures (forall k :: k in ks <==> k in slots) && State() == CloseKeys(old(State()), ks)
    {
      RootedTable(State());
      ghost var start := State();
      var todo := slots;
      ks := [];
      while todo != {}
        invariant Rooted(start) && TableOk(start) && TableOk(State()) && State() == CloseKeys(start, ks)
        invariant todo <= slots && todo <= consumePool.Keys && forall k :: k in ks <==> k in slots - todo
        decreases todo
      {
        hide TableOk, CloseKeys;
        var key :| key in todo;
        RootedTable(State());
        CloseKeysAppend(start, ks, key);
        CloseEntry(consumePool[key], key);
        ks := ks + [key];
        todo := todo - {key};
      }
    }

    method SweepExpired(now: int) returns (ghost ks: seq<Key>)
      requires TableOk(State())
      modifies this
      ensures Rooted(old(State())) && TableOk(State())
      ensures (forall k :: k in ks <==> Expired(old(State()), k, now)) && State() == CloseKeys(old(State()), ks)
    {
      RootedTable(State());
      ks := CloseSlots(set k | k in consumePool && !entries[consumePool[k]].inUse
                            && now - entries[consumePool[k]].lastUsedAt > IDLE_TTL);
    }

    method CloseFor(conn: string) returns (ghost ks: seq<Key>)
      requires TableOk(State())
      modifies this
      ensures Rooted(old(State())) && TableOk(State())
      ensures (forall k :: k in ks <==> OfConnection(old(State()), k, conn)) && State() == CloseKeys(old(State()), ks)
    {
      RootedTable(State());
      ks := CloseSlots(set k | k in consumePool && entries[consumePool[k]].conn == conn);
    }

    method CloseAll() returns (ghost ks: seq<Key>)
      requires TableOk(State())
      modifies this
      ensures Rooted(old(State())) && TableOk(State())
      ensures (forall k :: k in ks <==> k in old(consumePool)) && State() == CloseKeys(old(State()), ks)
    {
      ks := CloseSlots(consumePool.Keys);
    }
  }
}
