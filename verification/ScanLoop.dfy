/**
 The one-shot scan (backend/internal/kafkaconn/messages.go): it polls until enough records
 match, the scan limit is reached or time runs out, and reports where to resume.
 */
module ScanLoop {
  import opened Basics
  import opened Records

  const DEFAULT_LIMIT := 100
  const MAX_BATCH := 256

  // consumeMaxScanRecords
  function MaxScan(limit: int, maxScan: int): (r: int)
    requires 0 < limit
    ensures if maxScan > 0 then r == maxScan else r == Max(1000, 10 * limit)
  {
    if maxScan > 0 then maxScan else
      var scanLimit := if limit * 10 < 1000 then 1000 else limit * 10;
      if scanLimit < limit then limit else scanLimit
  }

  // consumeScanBatchSize
  function BatchSize(remaining: int): (n: nat)
    ensures n == if remaining > 256 then 256 else Max(remaining, 1)
  {
    if remaining < MAX_BATCH then (if remaining > 0 then remaining else 1) else MAX_BATCH
  }

  // --- The broker --------------------------------------------------------------------------------

  datatype FetchError = NoError | Deadline | Failure

  // One answer of the broker: how much it has ready, and how the poll ends.
  datatype Fetch = Fetch(ready: nat, err: FetchError, contextDone: bool)

  // A poll that was made: how much had been polled before it, how many records it asked for,
  // and how it ended.
  datatype Poll = Poll(start: nat, asked: nat, err: FetchError, contextDone: bool)

  predicate GoesOn(p: Poll) { p.err == NoError && !p.contextDone }

  predicate PollFailed(polls: seq<Poll>) { polls != [] && polls[|polls| - 1].err == Failure }

  predicate TimesOut(p: Poll) { p.err == Deadline || (p.err == NoError && p.contextDone) }

  class Broker<B> {
    // The records still to be delivered, in delivery order, and how the next polls go; when
    // the script has run out, the deadline has passed.
    var remaining: seq<Record<B>>
    var script: seq<Fetch>
    // Whether a commit would succeed.
    const commits: bool
    // History: everything polled, the polls, and what has been committed.
    ghost var polled: seq<Record<B>>
    ghost var polls: seq<Poll>
    ghost var committed: Option<Offsets>

    constructor (log: seq<Record<B>>, script: seq<Fetch>, commits: bool)
      ensures remaining == log && this.script == script && polled == [] && polls == [] && committed == None
      ensures this.commits == commits
    {
      this.commits := commits;
      remaining, this.script, polled, polls, committed := log, script, [], [], None;
    }

    // Commits the position behind everything polled.
    method CommitUncommittedOffsets() returns (ok: bool)
      modifies `committed
      ensures ok == commits && committed == if ok then Some(ResumeOffsets(polled)) else old(committed)
    {
      if commits { committed := Some(ResumeOffsets(polled)); }
      return commits;
    }

    method PollRecords(n: nat) returns (records: seq<Record<B>>, err: FetchError, contextDone: bool)
      modifies this`remaining, this`script, this`polled, this`polls
      ensures |records| <= n && old(remaining) == records + remaining && polled == old(polled) + records
      ensures polls == old(polls) + [Poll(|old(polled)|, n, err, contextDone)]
      ensures |script| < |old(script)| || (script == old(script) && err == Deadline)
    {
      if script == [] {
        polls := polls + [Poll(|polled|, n, Deadline, true)];
        return [], Deadline, true;
      }
      var f := script[0];
      var size := Min(f.ready, Min(n, |remaining|));
      records, err, contextDone := remaining[..size], f.err, f.contextDone;
      polls := polls + [Poll(|polled|, n, err, contextDone)];
      remaining, script, polled := remaining[size..], script[1..], polled + records;
    }
  }

  // --- The loop ----------------------------------------------------------------------------------

  datatype Result<B> = Result(messages: seq<Record<B>>, scanned: nat, matched: nat, limited: bool, hasMore: bool,
                              nextPartitionOffsets: Offsets)

  datatype Outcome<B> = Invalid | Failed | Done(result: Result<B>)

  // What the loop has found in the records d.
  ghost predicate Reports<B>(d: seq<Record<B>>, accepts: Record<B> -> bool, limit: nat, messages: seq<Record<B>>,
                             scanned: nat, matched: nat, next: Offsets) {
    && scanned == |d| && matched == |Matching(d, accepts)|
    && messages == Matching(d, accepts)[..Min(limit, matched)]
    && next == ResumeOffsets(d)
  }

  lemma ReportsStep<B>(d: seq<Record<B>>, r: Record<B>, accepts: Record<B> -> bool, limit: nat,
                       messages: seq<Record<B>>,
                       scanned: nat, matched: nat, next: Offsets)
    requires Reports(d, accepts, limit, messages, scanned, matched, next)
    ensures if accepts(r)
            then Reports(d + [r], accepts, limit, if |messages| >= limit then messages else messages + [r],
                         scanned + 1, matched + 1, Advance(next, r))
            else Reports(d + [r], accepts, limit, messages, scanned + 1, matched, Advance(next, r))
  {
    assert (d + [r])[..|d|] == d;
    var m := Matching(d, accepts);
    assert m + [] == m;
    if accepts(r) {
      assert (m + [r])[..Min(limit, matched + 1)] == if |messages| >= limit then messages else messages + [r];
    }
  }

  lemma OneMore<B>(d: seq<Record<B>>, records: seq<Record<B>>, i: nat)
    requires i < |records|
    ensures d + records[..i + 1] == d + records[..i] + [records[i]]
  {
  }

  // The inner loop over one poll's records; every one of them is scanned.
  method ScanFetch<B>(records: seq<Record<B>>, accepts: Record<B> -> bool, limit: nat, messages: seq<Record<B>>,
                      scanned: nat, matched: nat, next: Offsets, ghost d: seq<Record<B>>)
    returns (messages': seq<Record<B>>, scanned': nat, matched': nat, next': Offsets)
    requires Reports(d, accepts, limit, messages, scanned, matched, next)
    ensures Reports(d + records, accepts, limit, messages', scanned', matched', next')
  {
    messages', scanned', matched', next' := messages, scanned, matched, next;
    assert d + records[..0] == d;
    ghost var done := d;
    hide Reports, Advance;
    for i := 0 to |records|
      invariant done == d + records[..i]
      invariant Reports(done, accepts, limit, messages', scanned', matched', next')
    {
      var record := records[i];
      ReportsStep(done, record, accepts, limit, messages', scanned', matched', next');
      OneMore(d, records, i);
      done := done + [record];
      scanned' := scanned' + 1;
      next' := Advance(next', record);
      if !accepts(record) { continue; }
      matched' := matched' + 1;
      if |messages'| >= limit { continue; }
      messages' := messages' + [record];
    }
    assert records[..|records|] == records;
  }

  // Every poll was needed: none came after one that ended the scan, or after enough matches.
  // It asked for what may still be scanned, but at most 256 records.
  ghost predicate NeededPolls<B>(polls: seq<Poll>, polled: seq<Record<B>>, accepts: Record<B> -> bool,
                                 limit: nat, maxScan: int) {
    && (forall i :: 0 <= i < |polls| - 1 ==> GoesOn(polls[i]))
    && (forall i :: 0 <= i < |polls| ==>
          && polls[i].start <= |polled| && polls[i].start < maxScan
          && polls[i].asked == Min(256, maxScan - polls[i].start)
          && |Matching(polled[..polls[i].start], accepts)| < limit)
  }

  lemma OneMorePoll<B>(polls: seq<Poll>, polled: seq<Record<B>>, records: seq<Record<B>>, p: Poll,
                       accepts: Record<B> -> bool, limit: nat, maxScan: int)
    requires NeededPolls(polls, polled, accepts, limit, maxScan) && p.start == |polled| < maxScan
    requires p.asked == Min(256, maxScan - |polled|)
    requires (polls != [] ==> GoesOn(polls[|polls| - 1])) && |Matching(polled, accepts)| < limit
    ensures NeededPolls(polls + [p], polled + records, accepts, limit, maxScan)
  {
    hide Matching, GoesOn;
    assert forall k :: 0 <= k <= |polled| ==> (polled + records)[..k] == polled[..k];
    assert (polled + records)[..|polled|] == polled;
  }

  // limit as the parameters give it.
  function Limit(limitParam: int): (n: nat)
    ensures n == if limitParam > 0 then limitParam else 100
  {
    if limitParam <= 0 then DEFAULT_LIMIT else limitParam
  }

  /**
   Never scans more than the limit on scanning, polls no more than needed, and returns exactly
   the first matches in scan order, as many as the caller asked for or 100, with the resume
   offsets of everything scanned; a commit takes the position behind all of that. The scan ends
   at a limit or a timeout, so it always says there may be more.
   */
  method ConsumeMessages<B>(client: Broker<B>, limitParam: int, maxScanParam: int, commit: bool,
                            accepts: Record<B> -> bool)
    returns (out: Outcome<B>)
    requires client.polled == [] && client.polls == [] && client.committed == None
    modifies client
    ensures out.Invalid? <==> maxScanParam < 0
    ensures client.polled + client.remaining == old(client.remaining)
    ensures maxScanParam < 0 ==> client.polls == []
    ensures maxScanParam >= 0 ==>
              var limit := if limitParam > 0 then limitParam else 100;
              var maxScan := if maxScanParam > 0 then maxScanParam else Max(1000, 10 * limit);
              |client.polled| <= maxScan && NeededPolls(client.polls, client.polled, accepts, limit, maxScan)
    ensures out.Failed? <==>
              maxScanParam >= 0 && (PollFailed(client.polls) || (commit && !client.commits))
    ensures client.committed == if out.Done? && commit then Some(ResumeOffsets(client.polled)) else None
    ensures out.Done? ==>
              var limit := if limitParam > 0 then limitParam else 100;
              var maxScan := if maxScanParam > 0 then maxScanParam else Max(1000, 10 * limit);
              var r := out.result;
              && Reports(client.polled, accepts, limit, r.messages, r.scanned, r.matched, r.nextPartitionOffsets)
              && |r.messages| == Min(limit, r.matched)
              && (r.limited <==> r.matched >= limit) && r.hasMore
              && (r.limited || r.scanned >= maxScan
                  || (client.polls != [] && TimesOut(client.polls[|client.polls| - 1])))
  {
    if maxScanParam < 0 { return Invalid; }
    var limit := Limit(limitParam);
    var maxScan := MaxScan(limit, maxScanParam);
    var messages: seq<Record<B>>, next: Offsets := [], map[];
    var scanned: nat, matched: nat, timedOut := 0, 0, false;
    while scanned < maxScan && matched < limit && !timedOut
      invariant Reports(client.polled, accepts, limit, messages, scanned, matched, next)
      invariant client.polled + client.remaining == old(client.remaining) && scanned <= maxScan
      invariant NeededPolls(client.polls, client.polled, accepts, limit, maxScan)
      invariant client.polls != [] ==>
                  var last := client.polls[|client.polls| - 1]; if timedOut then TimesOut(last) else GoesOn(last)
      invariant timedOut ==> client.polls != []
      invariant client.committed == None
      decreases |client.script|, !timedOut
    {
      hide NeededPolls, ResumeOffsets, Matching;
      ghost var before, polls := client.polled, client.polls;
      var size := BatchSize(maxScan - scanned);
      var records, err, contextDone := client.PollRecords(size);
      OneMorePoll(polls, before, records, Poll(|before|, size, err, contextDone), accepts, limit, maxScan);
      messages, scanned, matched, next :=
        ScanFetch(records, accepts, limit, messages, scanned, matched, next, before);
      CatAssociates(before, records, client.remaining);
      if err == Deadline {
        timedOut := true;
      } else if err == Failure {
        assert PollFailed(client.polls);
        return Failed;
      } else if contextDone {
        timedOut := true;
      }
    }
    var limited := matched >= limit;
    if commit {
      var ok := client.CommitUncommittedOffsets();
      if !ok { return Failed; }
    }
    return Done(Result(messages, scanned, matched, limited, limited || scanned >= maxScan || timedOut, next));
  }

  // --- Resuming ----------------------------------------------------------------------------------

  // Partition and offset identify a record of the topic.
  ghost predicate IsTopic<B(!new)>(topic: set<Record<B>>) {
    forall r, r' :: r in topic && r' in topic && r.partition == r'.partition && r.offset == r'.offset ==> r == r'
  }

  // A scan is assigned partitions with a start offset each.
  predicate InScope<B>(start: Offsets, r: Record<B>) { r.partition in start && start[r.partition] <= r.offset }

  // d can be delivered from there: each partition's records in offset order without a gap.
  ghost predicate Delivers<B(!new)>(topic: set<Record<B>>, start: Offsets, d: seq<Record<B>>) {
    && (forall i :: 0 <= i < |d| ==> d[i] in topic && InScope(start, d[i]))
    && (forall i, j :: 0 <= i < j < |d| && d[i].partition == d[j].partition ==> d[i].offset < d[j].offset)
    && (forall r, i :: r in topic && InScope(start, r) && 0 <= i < |d|
                       && r.partition == d[i].partition && r.offset < d[i].offset ==>
          r in d[..i])
  }

  // The offsets a caller resumes from: those reported, and the old ones elsewhere.
  function Resumed(start: Offsets, next: Offsets): Offsets { start + next }

  // Scanned and still to be scanned split the scope.
  lemma ResumeSplits<B(!new)>(topic: set<Record<B>>, start: Offsets, d: seq<Record<B>>, r: Record<B>)
    requires IsTopic(topic) && Delivers(topic, start, d) && r in topic
    ensures InScope(start, r) ==> (r in d <==> !InScope(Resumed(start, ResumeOffsets(d)), r))
    ensures InScope(Resumed(start, ResumeOffsets(d)), r) ==> InScope(start, r)
    ensures r in d ==> InScope(start, r)
  {
    var next, p := ResumeOffsets(d), r.partition;
    ResumeOffsetsAreMaxima(d);
    if p in next {
      var i :| 0 <= i < |d| && d[i].partition == p && d[i].offset + 1 == next[p];
      assert d[i] in topic && InScope(start, d[i]);
      if InScope(start, r) && r.offset < next[p] {
        assert r.offset < d[i].offset ==> r in d[..i];
        assert r.offset == d[i].offset ==> r == d[i];
        assert r in d[..i] ==> r in d;
      }
    }
    if r in d {
      var k :| 0 <= k < |d| && d[k] == r;
      assert p in next && d[k].offset < next[p];
    }
  }

  lemma {:induction false} MatchingElements<B>(d: seq<Record<B>>, accepts: Record<B> -> bool)
    ensures forall r :: r in Matching(d, accepts) <==> r in d && accepts(r)
  {
    if d != [] {
      var init, last := d[..|d| - 1], d[|d| - 1];
      assert d == init + [last];
      MatchingElements(init, accepts);
    }
  }

  lemma {:induction false} MatchingDistinct<B>(d: seq<Record<B>>, accepts: Record<B> -> bool)
    requires Distinct(d)
    ensures Distinct(Matching(d, accepts))
  {
    if d != [] {
      var init, last := d[..|d| - 1], d[|d| - 1];
      assert d == init + [last];
      MatchingDistinct(init, accepts);
      MatchingElements(init, accepts);
      assert last !in init;
    }
  }

  lemma DeliveryDistinct<B(!new)>(topic: set<Record<B>>, start: Offsets, d: seq<Record<B>>)
    requires Delivers(topic, start, d)
    ensures Distinct(d)
  {
  }

  // Every match in the scope is returned or still in the scope of the resumed scan, not both.
  ghost predicate Lossless<B(!new)>(topic: set<Record<B>>, start: Offsets, next: Offsets, messages: seq<Record<B>>,
                                    accepts: Record<B> -> bool) {
    forall r :: r in topic && InScope(start, r) && accepts(r) ==> (r in messages <==> !InScope(Resumed(start, next), r))
  }

  /**
   Resuming skips or repeats no match exactly when no more matched than the limit allows. The
   result says how many matched, so a caller can tell before it resumes.
   */
  lemma ResumeIsLosslessIff<B(!new)>(topic: set<Record<B>>, start: Offsets, d: seq<Record<B>>,
                              accepts: Record<B> -> bool,
                                     limit: nat, r: Result<B>)
    requires IsTopic(topic) && Delivers(topic, start, d)
    requires Reports(d, accepts, limit, r.messages, r.scanned, r.matched, r.nextPartitionOffsets)
    ensures Lossless(topic, start, r.nextPartitionOffsets, r.messages, accepts) <==> r.matched <= limit
  {
    var m := Matching(d, accepts);
    MatchingElements(d, accepts);
    forall x | x in topic
      ensures InScope(start, x) ==> (x in d <==> !InScope(Resumed(start, ResumeOffsets(d)), x))
    {
      ResumeSplits(topic, start, d, x);
    }
    if r.matched > limit {
      DeliveryDistinct(topic, start, d);
      MatchingDistinct(d, accepts);
      var lost := m[limit];
      assert lost in m && lost !in r.messages;
      var i :| 0 <= i < |d| && d[i] == lost;
      assert d[i] in topic && InScope(start, d[i]);
    } else {
      assert r.messages == m;
    }
  }

  // Two matches in one poll and a limit of one: the second is neither returned nor ahead.
  lemma SomeResumeSkips() returns (topic: set<Record<int>>, start: Offsets, d: seq<Record<int>>, r: Result<int>)
    ensures IsTopic(topic) && Delivers(topic, start, d)
    ensures Reports(d, _ => true, 1, r.messages, r.scanned, r.matched, r.nextPartitionOffsets)
    ensures !Lossless(topic, start, r.nextPartitionOffsets, r.messages, _ => true)
  {
    var first, second := Record(0, 0, 0), Record(0, 1, 0);
    d, topic, start := [first, second], {first, second}, map[0 := 0];
    r := Result([first], 2, 2, true, true, map[0 := 2]);
    assert d[..1] == [first] && [first][..0] == [];
    assert Matching([first], _ => true) == [first];
    assert Matching(d, _ => true) == d;
    assert ResumeOffsets([first]) == map[0 := 1];
    assert second in topic && InScope(start, second) && second !in r.messages;
  }

  /**
   Passing the reported offsets alone assigns only the partitions the scan reached: the
   matches of the others are left out, and only those.
   */
  lemma ReportedOffsetsAlone<B(!new)>(topic: set<Record<B>>, start: Offsets, d: seq<Record<B>>, r: Record<B>)
    requires IsTopic(topic) && Delivers(topic, start, d) && r in topic && InScope(start, r) && r !in d
    ensures InScope(ResumeOffsets(d), r) <==> exists i :: 0 <= i < |d| && d[i].partition == r.partition
  {
    ResumeSplits(topic, start, d, r);
    ResumeOffsetsAreMaxima(d);
  }

  // --- Chains of resumed scans -----------------------------------------------------------------

  datatype Scan<B> = Scan(delivered: seq<Record<B>>, limit: nat, result: Result<B>)

  ghost predicate IsChain<B(!new)>(topic: set<Record<B>>, start: Offsets, scans: seq<Scan<B>>,
                            accepts: Record<B> -> bool)
    decreases |scans|
  {
    scans == [] ||
    var s, r := scans[0], scans[0].result;
    && Delivers(topic, start, s.delivered)
    && Reports(s.delivered, accepts, s.limit, r.messages, r.scanned, r.matched, r.nextPartitionOffsets)
    && r.matched <= s.limit
    && IsChain(topic, Resumed(start, r.nextPartitionOffsets), scans[1..], accepts)
  }

  function Returned<B>(scans: seq<Scan<B>>): seq<Record<B>> {
    if scans == [] then [] else scans[0].result.messages + Returned(scans[1..])
  }

  function LastStart<B>(start: Offsets, scans: seq<Scan<B>>): Offsets
    decreases |scans|
  {
    if scans == [] then start else LastStart(Resumed(start, scans[0].result.nextPartitionOffsets), scans[1..])
  }

  /** However often a scan is resumed, every match is returned once or is still ahead. */
  lemma {:induction false} ChainIsLossless<B(!new)>(topic: set<Record<B>>, start: Offsets, scans: seq<Scan<B>>,
                                             accepts: Record<B> -> bool)
    requires IsTopic(topic) && IsChain(topic, start, scans, accepts)
    ensures forall r :: r in topic && InScope(start, r) && accepts(r) ==>
              (r in Returned(scans) <==> !InScope(LastStart(start, scans), r))
    ensures forall r :: r in Returned(scans) ==> r in topic && InScope(start, r) && accepts(r)
    ensures forall r :: r in topic && InScope(LastStart(start, scans), r) ==> InScope(start, r)
    ensures Distinct(Returned(scans))
    decreases |scans|
  {
    if scans != [] {
      var s, r, rest := scans[0], scans[0].result, scans[1..];
      var mid := Resumed(start, r.nextPartitionOffsets);
      ChainIsLossless(topic, mid, rest, accepts);
      MatchingElements(s.delivered, accepts);
      assert r.messages == Matching(s.delivered, accepts);
      DeliveryDistinct(topic, start, s.delivered);
      MatchingDistinct(s.delivered, accepts);
      forall x | x in topic
        ensures InScope(start, x) ==> (x in s.delivered <==> !InScope(mid, x))
        ensures InScope(mid, x) ==> InScope(start, x)
        ensures x in s.delivered ==> InScope(start, x)
      {
        ResumeSplits(topic, start, s.delivered, x);
      }
      var later := Returned(rest);
      assert forall i :: 0 <= i < |r.messages| ==> r.messages[i] in s.delivered;
      assert forall j :: 0 <= j < |later| ==> later[j] in later && InScope(mid, later[j]);
    }
  }
}
