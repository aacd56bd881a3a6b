/**
 Which clients of the pool are used again (backend/internal/kafkaconn/consume_pool.go): never
 one that was given back unhealthy, and none that lay idle for more than two minutes.
 */
module PoolHealth {
  import opened Basics
  import opened ConsumePool
  import opened PoolRuns

  ghost predicate Spoiled(s: System, e: EntryId) { e in s.table.entries && s.table.entries[e].resetFailed }

  // The request gives entry e back as unhealthy.
  ghost predicate GivesBackUnhealthy(s: System, a: Step, e: EntryId) {
    && a.Release? && a.r in s.requests && s.requests[a.r].pc.Releasing?
    && s.requests[a.r].pc == Releasing(e, MarkUnhealthy, false, s.requests[a.r].pc.retry)
  }

  lemma CloseKeepsFlags(t: Table, ks: seq<Key>, e: EntryId)
    requires TableOk(t) && e in t.entries
    ensures e in CloseKeys(t, ks).entries && CloseKeys(t, ks).entries[e].resetFailed == t.entries[e].resetFailed
  {
    hide PoolKey, TableOk, CloseKeys;
    CloseKeysOk(t, ks);
  }

  lemma PutKeepsSpoiled(s: System, a: Step, e: EntryId)
    requires Inv(s) && a.Put? && Enabled(s, a) && Spoiled(s, e)
    ensures Spoiled(Next(s, a), e) && StillHeld(s, Next(s, a), e)
  {
    FilledFacts(s, a);
    PutGrants(s, a);
    OthersHold(s, Next(s, a), a.r);
    assert e != a.entry;
    hide PoolKey, TableOk, CloseKeys, Evicts, Filled, PutKey, Next, Enabled;
    CloseKeepsFlags(Filled(s, a), a.victims, e);
  }

  lemma ReleaseKeepsSpoiled(s: System, a: Step, e: EntryId)
    requires Inv(s) && a.Release? && Enabled(s, a) && Spoiled(s, e)
    ensures Spoiled(Next(s, a), e) && StillHeld(s, Next(s, a), e)
  {
    if s.requests[a.r].pc.stage.Sweep? {
      CloseKeepsFlags(s.table, a.expired, e);
    }
    hide PoolKey, TableOk, CloseKeys;
    OthersHold(s, Next(s, a), a.r);
  }

  lemma CloseKeepsSpoiled(s: System, a: Step, e: EntryId)
    requires Inv(s) && (a.CloseFor? || a.CloseAll?) && Enabled(s, a) && Spoiled(s, e)
    ensures Spoiled(Next(s, a), e) && StillHeld(s, Next(s, a), e)
  {
    CloseKeepsFlags(s.table, a.slots, e);
    hide PoolKey, TableOk, CloseKeys, Held;
  }

  lemma RestKeepsSpoiled(s: System, a: Step, e: EntryId)
    requires Inv(s) && (a.Acquire? || a.ResetDone? || a.OpenFailed? || a.ScanDone?) && Enabled(s, a) && Spoiled(s, e)
    ensures Spoiled(Next(s, a), e) && StillHeld(s, Next(s, a), e)
  {
    hide PoolKey, TableOk, CloseKeys;
    OthersHold(s, Next(s, a), a.r);
  }

  // Nobody holds e who did not.
  ghost predicate StillHeld(s: System, s': System, e: EntryId) {
    forall r :: Holds(s'.requests, r, e) ==> Holds(s.requests, r, e)
  }

  // A spoiled entry stays so, and no step grants it to anybody.
  lemma StaysSpoiled(s: System, a: Step, e: EntryId)
    requires Inv(s) && Enabled(s, a) && Spoiled(s, e)
    ensures Spoiled(Next(s, a), e) && StillHeld(s, Next(s, a), e)
  {
    hide *;
    match a {
      case Put(_, _, _, _, _) => PutKeepsSpoiled(s, a, e);
      case Release(_, _, ks) => ReleaseKeepsSpoiled(s, a, e);
      case CloseFor(_, ks) => CloseKeepsSpoiled(s, a, e);
      case CloseAll(ks) => CloseKeepsSpoiled(s, a, e);
      case _ => RestKeepsSpoiled(s, a, e);
    }
  }

  lemma {:induction false} PrefixIsRun(run: seq<Step>, k: nat)
    requires IsRun(run) && k <= |run|
    ensures IsRun(run[..k]) && (k < |run| ==> IsRun(run[..k + 1]))
    ensures k < |run| ==> Enabled(After(run[..k]), run[k]) && After(run[..k + 1]) == Next(After(run[..k]), run[k])
    decreases |run|
  {
    hide Enabled, Next;
    if k < |run| {
      var init := run[..|run| - 1];
      PrefixIsRun(init, k);
      assert run[..k] == init[..k];
      if k < |init| {
        assert run[..k + 1] == init[..k + 1];
      } else {
        assert run[..k + 1] == run && run[..k] == init;
      }
    } else {
      assert run[..k] == run;
    }
  }

  lemma {:induction false} SpoiledLater(run: seq<Step>, k: nat, e: EntryId)
    requires IsRun(run) && k <= |run| && IsRun(run[..k]) && Spoiled(After(run[..k]), e)
    ensures Spoiled(After(run), e)
    ensures forall r :: Holds(After(run).requests, r, e) ==> Holds(After(run[..k]).requests, r, e)
    decreases |run|
  {
    hide Spoiled, Holds, Enabled, Next, Inv;
    if k < |run| {
      var init := run[..|run| - 1];
      assert run[..k] == init[..k];
      SpoiledLater(init, k, e);
      RunKeepsInv(init);
      StaysSpoiled(After(init), run[|run| - 1], e);
    } else {
      assert run[..k] == run;
    }
  }

  /**
   Once a request has given an entry back as unhealthy, no other request is granted it, however
   long the run goes on: only the giver may still hold it, until it clears the mark.
   */
  lemma UnhealthyIsNeverGranted(run: seq<Step>, k: nat, r: RequestId, e: EntryId)
    requires IsRun(run) && k < |run| && IsRun(run[..k]) && GivesBackUnhealthy(After(run[..k]), run[k], e)
    requires Holds(After(run).requests, r, e)
    ensures r == run[k].r
  {
    PrefixIsRun(run, k);
    PrefixIsRun(run, k + 1);
    RunKeepsInv(run[..k + 1]);
    var before, after := After(run[..k]), After(run[..k + 1]);
    hide IsRun, After, TableOk, PoolKey, CloseKeys;
    assert Spoiled(after, e) && Holds(after.requests, run[k].r, e);
    SpoiledLater(run, k + 1, e);
  }

  /**
   A request is granted exactly the idle, healthy entry of its slot, which is then in use, reset
   to where the request starts and used now; otherwise it opens a client of its own.
   */
  lemma GrantedIff(s: System, a: Step)
    requires Inv(s) && Enabled(s, a) && a.Acquire?
    ensures var k, q := PoolKey(a.conn, a.sig), Next(s, a).requests[a.r];
            && (forall e :: q.pc == Resetting(e) <==>
                  k in s.table.pool && s.table.pool[k] == e
                  && !s.table.entries[e].inUse && !s.table.entries[e].resetFailed)
            && (q.pc.Resetting? || q.pc == Opening)
            && (forall e :: q.pc == Resetting(e) ==>
                  Next(s, a).table.entries[e] ==
                  s.table.entries[e].(inUse := true, atStart := a.atStart, lastUsedAt := a.now))
  {
    hide PoolKey;
  }

  // Closing and marking do not take entries away, so a release can go on.
  lemma ReleaseStep(s: System, r: RequestId, now: int, ks: seq<Key>)
    requires Inv(s) && r in s.requests && s.requests[r].pc.Releasing? && !s.requests[r].pc.stage.Sweep?
    ensures Enabled(s, Release(r, now, ks)) && Inv(Next(s, Release(r, now, ks)))
    ensures s.requests[r].pc.entry in s.table.entries
  {
    assert Rooted(s.table) && Known(s.requests, s.table);
    hide PoolKey, TableOk, CloseKeys;
    assert Enabled(s, Release(r, now, ks));
    ReleaseKeepsInv(s, Release(r, now, ks));
  }

  /** Undisturbed, a release marks the entry if it is unhealthy and gives it back as used now. */
  lemma ReleaseGivesBack(s: System, r: RequestId, now: int, ks: seq<Key>)
    requires Inv(s) && r in s.requests && s.requests[r].pc.Releasing? && s.requests[r].pc.stage.MarkUnhealthy?
    ensures var e, healthy := s.requests[r].pc.entry, s.requests[r].pc.healthy;
            var release := Release(r, now, ks);
            && Enabled(s, release) && Enabled(Next(s, release), release)
            && Enabled(Next(Next(s, release), release), release)
            && var t := Next(Next(Next(s, release), release), release);
               && t.requests[r].pc.stage.Sweep? && e in t.table.entries
               && t.table.entries[e] == s.table.entries[e].(
                    inUse := false, lastUsedAt := now,
                    resetFailed := s.table.entries[e].resetFailed || !healthy)
  {
    hide PoolKey, CloseKeys, Inv, Enabled;
    var release := Release(r, now, ks);
    ReleaseStep(s, r, now, ks);
    ReleaseStep(Next(s, release), r, now, ks);
    ReleaseStep(Next(Next(s, release), release), r, now, ks);
  }

  /** A sweep takes out exactly the entries that have been idle for more than two minutes. */
  lemma SweepsIdleEntries(s: System, a: Step, k: Key)
    requires Inv(s) && Enabled(s, a) && a.Release? && s.requests[a.r].pc.stage.Sweep? && k in s.table.pool
    ensures var entry := s.table.entries[s.table.pool[k]];
            k in Next(s, a).table.pool <==> entry.inUse || a.now - entry.lastUsedAt <= 120_000
  {
    CloseKeysOk(s.table, a.expired);
    hide PoolKey, CloseKeys, TableOk, OnlyCloses;
    assert k in a.expired <==> Expired(s.table, k, a.now);
  }
}
