/**
 The pool of inline connections of the stdio server (backend/internal/mcp/stdio.go). A request
 holds the lock twice: to look up or register its key, and to forget it when the connect
 failed.
 */
module StdioPool {
  import opened Basics

  const CAP := 8

  datatype Pool = Pool(hash: map<string, string>, ids: map<string, string>, order: seq<string>)

  // Every pooled key occurs in the order, so eviction finds one to take.
  ghost predicate Ordered(p: Pool) { forall k :: k in p.hash ==> p.hash[k] == k && k in p.order }

  ghost predicate Inv(p: Pool) { p.hash.Keys == p.ids.Keys && |p.hash| <= 8 && Ordered(p) }

  // strings.TrimPrefix(id, "mcp-")
  function HashOf(id: string): string { if |id| >= 4 && id[..4] == "mcp-" then id[4..] else id }

  lemma HashOfId(hash: string)
    ensures HashOf("mcp-" + hash) == hash
  {
  }

  // --- Steps -------------------------------------------------------------------------------------

  // One round of the eviction loop: the head of the order, stale or not.
  function DropOldest(p: Pool): (r: (Pool, seq<string>))
    requires p.order != []
  {
    var oldest, rest := p.order[0], p.order[1..];
    if oldest in p.hash then (Pool(p.hash - {oldest}, p.ids - {p.hash[oldest]}, rest), [p.hash[oldest]])
    else (p.(order := rest), [])
  }

  // The eviction loop: what is left, and the connections to close. Without a value it would
  // index an empty slice.
  function Evict(p: Pool): Option<(Pool, seq<string>)>
    decreases |p.order|
  {
    if |p.hash| < CAP then Some((p, []))
    else if p.order == [] then None
    else
      match Evict(DropOldest(p).0)
      case None => None
      case Some(r) => Some((r.0, DropOldest(p).1 + r.1))
  }

  function Added(p: Pool, id: string): Pool { Pool(p.hash[id := id], p.ids[id := HashOf(id)], p.order + [id]) }

  // The first lock region; a pooled key is a hit.
  function Registered(p: Pool, id: string): Option<(Pool, seq<string>)> {
    if id in p.hash then Some((p, []))
    else
      match Evict(p)
      case None => None
      case Some(r) => Some((Added(r.0, id), r.1))
  }

  // The second lock region, after a failed connect.
  function Forgotten(p: Pool, id: string): Pool { Pool(p.hash - {id}, p.ids - {id}, p.order) }

  // --- What a registration does ------------------------------------------------------------------

  // The first entry of the order that is not stale.
  function FirstPooled(p: Pool): Option<string>
    decreases |p.order|
  {
    if p.order == [] then None
    else if p.order[0] in p.hash then Some(p.order[0])
    else FirstPooled(p.(order := p.order[1..]))
  }

  lemma SizeWithout(m: map<string, string>, k: string)
    requires k in m
    ensures |m - {k}| == |m| - 1
  {
    assert (m - {k}).Keys == m.Keys - {k};
    assert |(m - {k}).Keys| == |m.Keys| - 1;
  }

  lemma FullPoolHasOrder(p: Pool)
    requires Ordered(p) && |p.hash| > 0
    ensures p.order != []
  {
    assert p.hash.Keys != {};
    var k :| k in p.hash.Keys;
  }

  lemma DropOldestKeeps(p: Pool)
    requires p.order != [] && Inv(p)
    ensures Inv(DropOldest(p).0) && DropOldest(p).0.hash == p.hash - {p.order[0]}
    ensures DropOldest(p).0.ids == p.ids - {p.order[0]}
  {
    if p.order[0] in p.hash {
      SizeWithout(p.hash, p.order[0]);
    } else {
      assert p.hash - {p.order[0]} == p.hash && p.ids - {p.order[0]} == p.ids;
    }
  }

  // The round that makes room is the last.
  lemma EvictPooledHead(p: Pool)
    requires Inv(p) && |p.hash| == CAP && p.order != [] && p.order[0] in p.hash
    ensures Evict(p) == Some((DropOldest(p).0, [p.order[0]])) && FirstPooled(p) == Some(p.order[0])
  {
    var q := DropOldest(p).0;
    SizeWithout(p.hash, p.order[0]);
    assert Evict(q) == Some((q, []));
    assert [p.order[0]] + [] == [p.order[0]];
  }

  lemma EvictStaleHead(p: Pool)
    requires |p.hash| >= CAP && p.order != [] && p.order[0] !in p.hash
    ensures Evict(p) == Evict(p.(order := p.order[1..])) && FirstPooled(p) == FirstPooled(p.(order := p.order[1..]))
  {
    var q := p.(order := p.order[1..]);
    assert Evict(q).Some? ==> [] + Evict(q).value.1 == Evict(q).value.1;
  }

  /** A full pool loses one connection, the first one of the order that is still pooled. */
  lemma {:induction false} EvictsTheFirstPooled(p: Pool)
    requires Inv(p) && |p.hash| == CAP
    ensures FirstPooled(p).Some? && FirstPooled(p).value in p.hash
    ensures var victim := FirstPooled(p).value;
            && Evict(p).Some? && Evict(p).value.1 == [victim] && Inv(Evict(p).value.0)
            && Evict(p).value.0.hash == p.hash - {victim} && Evict(p).value.0.ids == p.ids - {victim}
    decreases |p.order|
  {
    FullPoolHasOrder(p);
    DropOldestKeeps(p);
    hide Evict, FirstPooled, Inv, Ordered;
    if p.order[0] in p.hash {
      EvictPooledHead(p);
    } else {
      EvictStaleHead(p);
      EvictsTheFirstPooled(p.(order := p.order[1..]));
    }
  }

  // The loop has come from start to p.
  ghost predicate Evicting(start: Pool, p: Pool, evicted: seq<string>) {
    match Evict(p)
    case None => Evict(start).None?
    case Some(r) => Evict(start) == Some((r.0, evicted + r.1))
  }

  lemma NothingEvicted(start: Pool)
    ensures Evicting(start, start, [])
  {
    hide Evict;
    assert Evict(start).Some? ==> [] + Evict(start).value.1 == Evict(start).value.1;
  }

  lemma EvictingStep(start: Pool, p: Pool, evicted: seq<string>)
    requires Evicting(start, p, evicted) && Inv(p)
    ensures |p.hash| < CAP ==> Evict(start) == Some((p, evicted))
    ensures |p.hash| >= CAP ==>
              && p.order != [] && Inv(DropOldest(p).0) && |DropOldest(p).0.order| < |p.order|
              && Evicting(start, DropOldest(p).0, evicted + DropOldest(p).1)
  {
    assert evicted + [] == evicted;
    if |p.hash| >= CAP {
      FullPoolHasOrder(p);
      DropOldestKeeps(p);
      if Evict(DropOldest(p).0).Some? {
        CatAssociates(evicted, DropOldest(p).1, Evict(DropOldest(p).0).value.1);
      }
    }
    hide Inv, Ordered;
  }

  function Elements(s: seq<string>): set<string> { set v | v in s }

  // What a request gives up to pool a new key.
  function Victims(p: Pool, id: string): seq<string> {
    if id in p.hash || |p.hash| < CAP || FirstPooled(p).None? then [] else [FirstPooled(p).value]
  }

  lemma AddedAndTaken(keys: set<string>, id: string)
    requires id !in keys
    ensures keys + {id} - {id} == keys && keys + {} == keys
  {
  }

  lemma AddedKeepsInv(p: Pool, id: string)
    requires Inv(p) && |p.hash| < CAP
    ensures Inv(Added(p, id)) && Added(p, id).hash.Keys == p.hash.Keys + {id}
  {
    var r := Added(p, id);
    assert r.hash.Keys == p.hash.Keys + {id} && r.ids.Keys == p.ids.Keys + {id};
    assert |r.hash.Keys| <= |p.hash.Keys| + 1;
    assert r.order[|p.order|] == id;
    assert forall k :: k in p.order ==> k in r.order;
  }

  lemma NoVictims(p: Pool, id: string)
    requires id in p.hash
    ensures Victims(p, id) == [] && Elements(Victims(p, id)) == {}
  {
  }

  lemma EvictedForKey(p: Pool, id: string)
    requires Inv(p) && id !in p.hash
    ensures Evict(p).Some? && Evict(p).value.1 == Victims(p, id)
    ensures Inv(Evict(p).value.0) && |Evict(p).value.0.hash| < CAP
    ensures Evict(p).value.0.hash.Keys == p.hash.Keys - Elements(Victims(p, id))
    ensures |p.hash| == CAP ==> |Victims(p, id)| == 1 && Victims(p, id)[0] in p.hash
    ensures id !in Evict(p).value.0.hash
  {
    if |p.hash| == CAP {
      EvictsTheFirstPooled(p);
      hide Evict, FirstPooled, Inv;
      SizeWithout(p.hash, FirstPooled(p).value);
    } else {
      assert Evict(p) == Some((p, []));
    }
  }

  /** Registering a key never fails, keeps the invariant, and drops at most the one victim. */
  lemma RegisterKeepsInv(p: Pool, id: string)
    requires Inv(p)
    ensures Registered(p, id).Some? && Inv(Registered(p, id).value.0) && Registered(p, id).value.1 == Victims(p, id)
    ensures Registered(p, id).value.0.hash.Keys == p.hash.Keys - Elements(Victims(p, id)) + {id}
    ensures |p.hash| == CAP && id !in p.hash ==> |Victims(p, id)| == 1 && Victims(p, id)[0] in p.hash
  {
    hide Evict, FirstPooled, Inv, Victims, Elements, Added;
    if id !in p.hash {
      EvictedForKey(p, id);
      AddedKeepsInv(Evict(p).value.0, id);
    } else {
      NoVictims(p, id);
      assert p.hash.Keys - {} + {id} == p.hash.Keys;
    }
  }

  lemma ForgetKeepsInv(p: Pool, id: string)
    requires Inv(p)
    ensures Inv(Forgotten(p, id)) && id !in Forgotten(p, id).hash
  {
    if id in p.hash {
      SizeWithout(p.hash, id);
    } else {
      assert p.hash - {id} == p.hash;
    }
  }

  // --- The program's state -------------------------------------------------------------------------

  class StdioServer {
    var hash: map<string, string>
    var ids: map<string, string>
    var order: seq<string>
    // The connections the service has open.
    ghost var connected: set<string>

    ghost function State(): Pool
      reads this
    {
      Pool(hash, ids, order)
    }

    constructor ()
      ensures State() == Pool(map[], map[], []) && connected == {}
    {
      hash, ids, order, connected := map[], map[], [], {};
    }

    // Either table answers: they have the same keys.
    method PoolHas(id: string) returns (ok: bool)
      requires Inv(State())
      ensures ok <==> id in hash
    {
      ok := id in ids;
    }

    // The first lock region.
    method RegisterKey(id: string) returns (hit: bool, evicted: seq<string>)
      requires Inv(State())
      modifies this`hash, this`ids, this`order
      ensures Registered(old(State()), id) == Some((State(), evicted)) && hit == (id in old(hash)) && Inv(State())
      ensures evicted == Victims(old(State()), id) && hash.Keys == old(hash.Keys) - Elements(evicted) + {id}
    {
      RegisterKeepsInv(State(), id);
      if id in hash { return true, []; }
      evicted := EvictOldest();
      hash, ids, order := hash[id := id], ids[id := HashOf(id)], order + [id];
      return false, evicted;
    }

    method EvictOldest() returns (evicted: seq<string>)
      requires Inv(State())
      modifies this`hash, this`ids, this`order
      ensures Evict(old(State())) == Some((State(), evicted))
    {
      evicted := [];
      ghost var start := State();
      NothingEvicted(start);
      while |hash| >= CAP
        invariant Inv(State()) && Evicting(start, State(), evicted)
        decreases |order|
      {
        hide Evicting, Inv;
        EvictingStep(start, State(), evicted);
        evicted := DropHead(evicted);
      }
      EvictingStep(start, State(), evicted);
    }

    // One round of the loop.
    method DropHead(evicted: seq<string>) returns (evicted': seq<string>)
      requires order != []
      modifies this`hash, this`ids, this`order
      ensures State() == DropOldest(old(State())).0 && evicted' == evicted + DropOldest(old(State())).1
    {
      evicted' := evicted;
      var oldest := order[0];
      order := order[1..];
      if oldest in hash {
        var stale := hash[oldest];
        hash, ids := hash - {oldest}, ids - {stale};
        evicted' := evicted + [stale];
      }
    }

    // The second lock region.
    method ForgetKey(id: string)
      modifies this`hash, this`ids
      ensures State() == Forgotten(old(State()), id) && hash.Keys == old(hash.Keys) - {id}
    {
      hash, ids := hash - {id}, ids - {id};
    }

    /**
     A call that nothing comes between keeps the pooled keys and the open connections the
     same, whether its connect fails or not.
     */
    method PooledConnectionId(id: string, connects: bool) returns (r: Option<string>)
      requires Inv(State()) && connected == hash.Keys
      modifies this
      ensures Inv(State()) && connected == hash.Keys
      ensures r == if id in old(hash) || connects then Some(id) else None
      ensures hash.Keys == if id in old(hash) then old(hash.Keys)
                           else old(hash.Keys) - Elements(Victims(old(State()), id)) + (if connects then {id} else {})
    {
      hide Inv, Ordered, Victims, Registered, Forgotten, FirstPooled, Evict, Elements;
      var hit, evicted := RegisterKey(id);
      if hit {
        NoVictims(old(State()), id);
        return Some(id);
      }
      connected := connected - Elements(evicted);
      if !connects {
        ForgetKeepsInv(State(), id);
        AddedAndTaken(connected, id);
        ForgetKey(id);
        return None;
      }
      connected := connected + {id};
      return Some(id);
    }
  }
}
