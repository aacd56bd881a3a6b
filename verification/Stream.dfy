/**
 The streaming consumer (backend/internal/kafkaconn/stream.go): a loop that scans records
 into a pending batch, and a fixed ring that keeps the most recent flushed messages.
 */
module Stream {
  import opened Basics
  import opened Records

  const BATCH_SIZE := 50
  const RING_CAPACITY := 10_000

  // The last n elements of s, or all of it.
  function LastN<T>(s: seq<T>, n: nat): seq<T> { if |s| <= n then s else s[|s| - n..] }

  function PageOf<T>(s: seq<T>, offset: int, limit: nat): seq<T> {
    var from := Max(offset, 0);
    if from >= |s| then [] else s[from..Min(from + limit, |s|)]
  }

  // Where the kept elements and those of a page come from.
  lemma KeptElements<T>(s: seq<T>, n: nat)
    ensures |LastN(s, n)| == Min(|s|, n)
    ensures forall i :: 0 <= i < |LastN(s, n)| ==> LastN(s, n)[i] == s[|s| - |LastN(s, n)| + i]
  {
  }

  /** A page has the elements from the offset on, from the first if it is negative, as many as the limit allows. */
  lemma PageElements<T>(s: seq<T>, offset: int, limit: nat)
    ensures var from, page := if offset < 0 then 0 else offset, PageOf(s, offset, limit);
            && |page| == (if from >= |s| then 0 else if from + limit < |s| then limit else |s| - from)
            && forall i :: 0 <= i < |page| ==> page[i] == s[from + i]
  {
  }

  // --- The ring --------------------------------------------------------------------------------

  // The messages in the array w, oldest first; head is the next position to write.
  ghost function InRing<T>(w: seq<T>, head: nat, size: nat): (c: seq<T>)
    requires head < |w| && size <= |w|
    ensures |c| == size
  {
    if size < |w| then w[..size] else w[head..] + w[..head]
  }

  lemma RingAppend<T>(w: seq<T>, head: nat, size: nat, x: T)
    requires head < |w| && size <= |w| && (size < |w| ==> head == size)
    ensures InRing(w[head := x], if head + 1 == |w| then 0 else head + 1, if size < |w| then size + 1 else size)
         == LastN(InRing(w, head, size) + [x], |w|)
  {
    var before := InRing(w, head, size);
    if size == |w| {
      assert (before + [x])[1..] == w[head + 1..] + w[..head] + [x];
    }
  }

  lemma RingAt<T>(w: seq<T>, head: nat, size: nat, j: nat)
    requires head < |w| && size <= |w| && (size < |w| ==> head == size) && j < size
    ensures var base := if size < |w| then 0 else head;
            InRing(w, head, size)[j] == w[if base + j < |w| then base + j else base + j - |w|]
  {
  }

  lemma WrapOnce(x: nat, c: nat)
    requires 0 < c && x < 2 * c
    ensures x % c == if x < c then x else x - c
  {
  }

  class Ring<T(0)> {
    var data: array<T>
    // The next position to write.
    var head: nat
    var size: nat
    const capacity: nat

    ghost predicate Valid()
      reads this
    {
      && 0 < capacity == data.Length && head < capacity && size <= capacity
      && (size < capacity ==> head == size)
    }

    ghost function Contents(): (c: seq<T>)
      requires Valid()
      reads this, data
      ensures |c| == size
    {
      InRing(data[..], head, size)
    }

    constructor (cap: int)
      ensures Valid() && fresh(data) && Contents() == []
      ensures capacity == if cap <= 0 then 10_000 else cap
    {
      capacity := if cap <= 0 then RING_CAPACITY else cap;
      data := new T[if cap <= 0 then RING_CAPACITY else cap];
      head, size := 0, 0;
    }

    method Append(x: T)
      requires Valid()
      modifies this`head, this`size, data
      ensures Valid() && Contents() == LastN(old(Contents()) + [x], capacity)
    {
      hide InRing, LastN;
      ghost var w := data[..];
      RingAppend(w, head, size, x);
      data[head] := x;
      assert data[..] == w[head := x];
      WrapOnce(head + 1, capacity);
      head := (head + 1) % capacity;
      if size < capacity { size := size + 1; }
    }

    method AppendBatch(msgs: seq<T>)
      requires Valid()
      modifies this`head, this`size, data
      ensures Valid() && Contents() == LastN(old(Contents()) + msgs, capacity)
    {
      ghost var before := Contents();
      assert before + msgs[..0] == before;
      for i := 0 to |msgs|
        invariant Valid() && data == old(data) && Contents() == LastN(before + msgs[..i], capacity)
      {
        hide InRing, LastN;
        Append(msgs[i]);
        assert before + msgs[..i + 1] == before + msgs[..i] + [msgs[i]];
        LastNAppend(before + msgs[..i], msgs[i], capacity);
      }
      assert msgs[..|msgs|] == msgs;
    }

    // The i-th oldest message.
    method At(i: nat) returns (x: T)
      requires Valid() && i < size
      ensures x == Contents()[i]
    {
      RingAt(data[..], head, size, i);
      hide InRing;
      WrapOnce(head + capacity - size, capacity);
      var base := (head + capacity - size) % capacity;
      WrapOnce(base + i, capacity);
      x := data[(base + i) % capacity];
    }

    // limit is positive: the caller replaces anything else by 100.
    method Page(offset: int, limit: nat) returns (out: seq<T>)
      requires Valid()
      ensures out == PageOf(Contents(), offset, limit)
    {
      hide InRing, LastN;
      var from := if offset < 0 then 0 else offset;
      if from >= size { return []; }
      var end := from + limit;
      if end > size { end := size; }
      ghost var c := Contents();
      out := [];
      var i := 0;
      while i < end - from
        invariant 0 <= i <= end - from && out == c[from..from + i]
      {
        var x := At(from + i);
        out := out + [x];
        i := i + 1;
      }
    }
  }

  // Keeping the last n of a sequence loses nothing for keeping the last n of a longer one.
  lemma LastNAppend<T>(s: seq<T>, x: T, n: nat)
    requires 0 < n
    ensures LastN(LastN(s, n) + [x], n) == LastN(s + [x], n)
  {
  }

  lemma LastNCat<T>(s: seq<T>, t: seq<T>, n: nat)
    ensures LastN(LastN(s, n) + t, n) == LastN(s + t, n)
  {
  }

  // --- One session -----------------------------------------------------------------------------

  // What one flush hands over, with the totals and the pause flag it saw.
  datatype Flush<M> = Flush(messages: seq<M>, totalScanned: nat, totalMatched: nat, paused: bool)

  // What can happen to a session: a polled record is scanned, the timer fires, the user
  // pauses or resumes, or the session ends.
  datatype Event<B> = Scan(record: Record<B>) | Tick | SetPaused(on: bool) | Stop

  function Scanned<B>(events: seq<Event<B>>): seq<Record<B>> {
    if events == [] then []
    else
      var last := events[|events| - 1];
      Scanned(events[..|events| - 1]) + (if last.Scan? then [last.record] else [])
  }

  function Messages<M>(flushes: seq<Flush<M>>): seq<M> {
    if flushes == [] then [] else Messages(flushes[..|flushes| - 1]) + flushes[|flushes| - 1].messages
  }

  // The flushes that reach the emitter.
  function Unpaused<M>(flushes: seq<Flush<M>>): seq<Flush<M>> {
    if flushes == [] then []
    else
      var last := flushes[|flushes| - 1];
      Unpaused(flushes[..|flushes| - 1]) + (if last.paused then [] else [last])
  }

  function Render<B, M>(records: seq<Record<B>>, render: Record<B> -> M): (r: seq<M>)
    ensures |r| == |records| && forall i :: 0 <= i < |r| ==> r[i] == render(records[i])
  {
    seq(|records|, i requires 0 <= i < |records| => render(records[i]))
  }

  // What one session has done with a history of events.
  datatype Progress<M> = Progress(flushes: seq<Flush<M>>, batch: seq<M>, scanned: nat, matched: nat,
                                  ring: seq<M>, emitted: seq<Flush<M>>, offsets: Offsets)

  datatype Config<!B, !M> = Config(accepts: Record<B> -> bool, render: Record<B> -> M, capacity: nat, hasEmitter: bool)

  // Flushed and pending messages are the matched records in scan order; the totals count
  // them; the ring and the emitter have seen what they should.
  ghost predicate Consistent<B, M>(p: Progress<M>, events: seq<Event<B>>, c: Config<B, M>) {
    && Messages(p.flushes) + p.batch == Render(Matching(Scanned(events), c.accepts), c.render)
    && p.scanned == |Scanned(events)|
    && p.matched == |Messages(p.flushes)| + |p.batch|
    && p.ring == LastN(Messages(p.flushes), c.capacity)
    && p.emitted == (if c.hasEmitter then Unpaused(p.flushes) else [])
    && p.offsets == ResumeOffsets(Scanned(events))
  }

  // An event that scans nothing.
  lemma QuietEvent<B, M>(p: Progress<M>, events: seq<Event<B>>, e: Event<B>, c: Config<B, M>)
    requires Consistent(p, events, c) && !e.Scan?
    ensures Consistent(p, events + [e], c)
  {
    assert (events + [e])[..|events|] == events;
    assert Scanned(events + [e]) == Scanned(events);
  }

  lemma RenderLast<B, M>(records: seq<Record<B>>, last: Record<B>, render: Record<B> -> M)
    ensures Render(records + [last], render) == Render(records, render) + [render(last)]
  {
  }

  // What one polled record changes before any flush.
  function Noted<B, M>(p: Progress<M>, r: Record<B>, c: Config<B, M>): Progress<M> {
    var q := p.(scanned := p.scanned + 1, offsets := Advance(p.offsets, r));
    if c.accepts(r) then q.(matched := p.matched + 1, batch := p.batch + [c.render(r)]) else q
  }

  lemma ScanEvent<B, M>(p: Progress<M>, events: seq<Event<B>>, r: Record<B>, c: Config<B, M>)
    requires Consistent(p, events, c)
    ensures Consistent(Noted(p, r, c), events + [Scan(r)], c)
  {
    var more, records := events + [Scan(r)], Scanned(events);
    assert more[..|events|] == events;
    assert Scanned(more) == records + [r];
    hide Messages, Unpaused, LastN, Render, Scanned, Matching, ResumeOffsets;
    RecordAppended(records, r, c);
    assert Messages(p.flushes) + (p.batch + [c.render(r)]) == Messages(p.flushes) + p.batch + [c.render(r)];
  }

  lemma RecordAppended<B, M>(records: seq<Record<B>>, r: Record<B>, c: Config<B, M>)
    ensures ResumeOffsets(records + [r]) == Advance(ResumeOffsets(records), r)
    ensures Render(Matching(records + [r], c.accepts), c.render) ==
              Render(Matching(records, c.accepts), c.render) + (if c.accepts(r) then [c.render(r)] else [])
  {
    assert (records + [r])[..|records|] == records;
    RenderLast(Matching(records, c.accepts), r, c.render);
    var m := Matching(records, c.accepts);
    assert m + [] == m && Render(m, c.render) + [] == Render(m, c.render);
  }

  // flush: a pending batch goes to the ring, and to the emitter unless paused.
  function Flushed<B, M>(p: Progress<M>, paused: bool, c: Config<B, M>): Progress<M> {
    if p.batch == [] then p else FlushedBatch(p, paused, c)
  }

  function FlushedBatch<B, M>(p: Progress<M>, paused: bool, c: Config<B, M>): Progress<M> {
    var f := Flush(p.batch, p.scanned, p.matched, paused);
    p.(flushes := p.flushes + [f], batch := [], ring := LastN(p.ring + p.batch, c.capacity),
       emitted := if c.hasEmitter && !paused then p.emitted + [f] else p.emitted)
  }

  lemma FlushStep<B, M>(p: Progress<M>, events: seq<Event<B>>, paused: bool, c: Config<B, M>)
    requires Consistent(p, events, c)
    ensures Consistent(FlushedBatch(p, paused, c), events, c)
  {
    var f := Flush(p.batch, p.scanned, p.matched, paused);
    var more := p.flushes + [f];
    assert more[..|p.flushes|] == p.flushes;
    assert Messages(more) == Messages(p.flushes) + p.batch && Messages(more) + [] == Messages(more);
    assert Unpaused(more) == if paused then Unpaused(p.flushes) else Unpaused(p.flushes) + [f];
    LastNCat(Messages(p.flushes), p.batch, c.capacity);
  }

  // A flush hands over one to fifty messages, with the number of messages flushed up to then.
  ghost predicate WellFlushed<M>(flushes: seq<Flush<M>>) {
    forall k :: 0 <= k < |flushes| ==>
      1 <= |flushes[k].messages| <= 50 && flushes[k].totalMatched == |Messages(flushes[..k + 1])|
  }

  lemma WellFlushedStep<B, M>(p: Progress<M>, events: seq<Event<B>>, paused: bool, c: Config<B, M>)
    requires Consistent(p, events, c) && WellFlushed(p.flushes) && 0 < |p.batch| <= BATCH_SIZE
    ensures WellFlushed(FlushedBatch(p, paused, c).flushes)
  {
    var more := FlushedBatch(p, paused, c).flushes;
    assert more[..|p.flushes|] == p.flushes && more[..|more|] == more;
    forall k | 0 <= k < |p.flushes| ensures more[k].totalMatched == |Messages(more[..k + 1])| {
      assert more[..k + 1] == p.flushes[..k + 1];
    }
  }

  // What an event does to a session.
  function Handled<B, M>(p: Progress<M>, paused: bool, e: Event<B>, c: Config<B, M>): Progress<M> {
    match e
    case Scan(r) => if |Noted(p, r, c).batch| >= BATCH_SIZE then Flushed(Noted(p, r, c), paused, c) else Noted(p, r, c)
    case Tick => Flushed(p, paused, c)
    case Stop => Flushed(p, paused, c)
    case SetPaused(_) => p
  }

  function PausedAfter<B>(paused: bool, e: Event<B>): bool { if e.SetPaused? then e.on else paused }

  // And a sequence of events.
  function Progressed<B, M>(p: Progress<M>, paused: bool, input: seq<Event<B>>, c: Config<B, M>): (Progress<M>, bool) {
    if input == [] then (p, paused)
    else
      var before, e := Progressed(p, paused, input[..|input| - 1], c), input[|input| - 1];
      (Handled(before.0, before.1, e, c), PausedAfter(before.1, e))
  }

  function Fresh<M>(): Progress<M> { Progress([], [], 0, 0, [], [], map[]) }

  lemma HandledKeeps<B, M>(p: Progress<M>, events: seq<Event<B>>, paused: bool, e: Event<B>, c: Config<B, M>)
    requires Consistent(p, events, c) && WellFlushed(p.flushes) && |p.batch| < BATCH_SIZE
    ensures Consistent(Handled(p, paused, e, c), events + [e], c)
    ensures WellFlushed(Handled(p, paused, e, c).flushes) && |Handled(p, paused, e, c).batch| < BATCH_SIZE
  {
    hide Consistent, WellFlushed;
    if e.Scan? {
      ScanEvent(p, events, e.record, c);
    } else {
      QuietEvent(p, events, e, c);
    }
    var q := if e.Scan? then Noted(p, e.record, c) else p;
    FlushStep(q, events + [e], paused, c);
    if q.batch != [] {
      WellFlushedStep(q, events + [e], paused, c);
    }
  }

  /**
   However a session runs, flushed and pending messages are the matches in scan order, every
   flush has one to fifty of them, fewer than fifty are pending, the ring holds the last of
   the flushed ones, and what was emitted is what was flushed while unpaused.
   */
  lemma {:induction false} EverySessionIsConsistent<B, M>(input: seq<Event<B>>, c: Config<B, M>)
    ensures var p := Progressed(Fresh<M>(), false, input, c).0;
            Consistent(p, input, c) && WellFlushed(p.flushes) && |p.batch| < 50
  {
    hide Consistent, WellFlushed, Handled;
    if input == [] {
      NothingDone(c);
    } else {
      var n := |input| - 1;
      EverySessionIsConsistent(input[..n], c);
      var before := Progressed(Fresh<M>(), false, input[..n], c);
      HandledKeeps(before.0, input[..n], before.1, input[n], c);
      assert input[..n] + [input[n]] == input;
    }
  }

  lemma NothingDone<B, M>(c: Config<B, M>)
    ensures Consistent(Fresh<M>(), [], c) && WellFlushed(Fresh<M>().flushes)
  {
  }

  lemma OneMoreEvent<B, M>(p: Progress<M>, paused: bool, input: seq<Event<B>>, i: nat, c: Config<B, M>)
    requires i < |input|
    ensures var before := Progressed(p, paused, input[..i], c);
            Progressed(p, paused, input[..i + 1], c) ==
            (Handled(before.0, before.1, input[i], c), PausedAfter(before.1, input[i]))
  {
    hide Handled;
    assert input[..i + 1][..i] == input[..i];
  }

  // A poll that does not fail has all its records scanned, in order.
  function PollEvents<B>(records: seq<Record<B>>, failed: bool): seq<Event<B>> {
    if failed then [] else seq(|records|, i requires 0 <= i < |records| => Scan(records[i]))
  }

  lemma {:induction false} PollScans<B>(events: seq<Event<B>>, records: seq<Record<B>>)
    ensures Scanned(events + PollEvents(records, false)) == Scanned(events) + records
    ensures events + PollEvents(records, true) == events
  {
    var poll := PollEvents(records, false);
    if records == [] {
      assert events + poll == events;
    } else {
      var n := |records| - 1;
      PollScans(events, records[..n]);
      assert (events + poll)[..|events| + n] == events + PollEvents(records[..n], false);
    }
  }

  // --- When a session flushes --------------------------------------------------------------------

  ghost predicate IsLastChange<B>(events: seq<Event<B>>, i: int) {
    && 0 <= i < |events| && events[i].SetPaused?
    && forall j :: i < j < |events| ==> !events[j].SetPaused?
  }

  // Whether the session is paused after the events: as the last change says, and not if there is none.
  ghost predicate FlagIs<B>(events: seq<Event<B>>, on: bool) {
    if exists i :: IsLastChange(events, i) then exists i :: IsLastChange(events, i) && events[i].on == on else !on
  }

  lemma FlagStep<B>(events: seq<Event<B>>, on: bool, e: Event<B>)
    requires FlagIs(events, on)
    ensures FlagIs(events + [e], PausedAfter(on, e))
  {
    var more, n := events + [e], |events|;
    if e.SetPaused? {
      assert IsLastChange(more, n);
    } else if i :| IsLastChange(events, i) && events[i].on == on {
      assert IsLastChange(more, i) && more[i].on == on;
    } else if i :| IsLastChange(more, i) {
      assert more[i] == events[i];
      forall j | i < j < |events| ensures !events[j].SetPaused? {
        assert more[j] == events[j];
      }
      assert IsLastChange(events, i);
    }
  }

  lemma FlagIsOne<B>(events: seq<Event<B>>, on: bool, other: bool)
    requires FlagIs(events, on) && FlagIs(events, other)
    ensures on == other
  {
  }

  lemma PausedIsLastSet<B, M>(input: seq<Event<B>>, c: Config<B, M>)
    ensures forall on :: FlagIs(input, on) <==> on == Progressed(Fresh<M>(), false, input, c).1
  {
    PausedIsSome(input, c);
    forall on | FlagIs(input, on) ensures on == Progressed(Fresh<M>(), false, input, c).1 {
      FlagIsOne(input, on, Progressed(Fresh<M>(), false, input, c).1);
    }
  }

  lemma {:induction false} PausedIsSome<B, M>(input: seq<Event<B>>, c: Config<B, M>)
    ensures FlagIs(input, Progressed(Fresh<M>(), false, input, c).1)
  {
    if input != [] {
      var n := |input| - 1;
      PausedIsSome(input[..n], c);
      assert input[..n] + [input[n]] == input;
      hide FlagIs, Handled;
      FlagStep(input[..n], Progressed(Fresh<M>(), false, input[..n], c).1, input[n]);
    }
  }

  // The timer and the end hand over whatever is pending; so does the fiftieth match.
  predicate Due<B, M>(e: Event<B>, pending: seq<M>) {
    ((e.Tick? || e.Stop?) && pending != []) || |pending| >= 50
  }

  /**
   After any input the next event flushes exactly when the timer fires or the session ends
   with matches not handed over, or a record makes them fifty. The flush has all of those,
   the totals up to that event, and the pause flag in force when it happened.
   */
  lemma NextFlush<B, M>(input: seq<Event<B>>, e: Event<B>, c: Config<B, M>)
    ensures var before, after := Progressed(Fresh<M>(), false, input, c), Progressed(Fresh<M>(), false, input + [e], c);
            var found := Matching(Scanned(input + [e]), c.accepts);
            var given := |Messages(before.0.flushes)|;
            && given <= |found| && FlagIs(input, before.1) && FlagIs(input + [e], after.1)
            && var pending := Render(found, c.render)[given..];
               if Due(e, pending)
               then
                 && after.0.flushes ==
                    before.0.flushes + [Flush(pending, |Scanned(input + [e])|, |found|, before.1)]
                 && after.0.batch == []
               else after.0.flushes == before.0.flushes && after.0.batch == pending
  {
    var before := Progressed(Fresh<M>(), false, input, c);
    var p, paused, more := before.0, before.1, input + [e];
    assert more[..|input|] == input;
    EverySessionIsConsistent(input, c);
    PausedIsSome(input, c);
    PausedIsSome(more, c);
    var q := if e.Scan? then Noted(p, e.record, c) else p;
    HandedOver(p, input, e, c);
    hide FlagIs, Consistent, WellFlushed, Messages, Scanned, Render, Matching, LastN;
  }

  // What is pending once an event is noted: the matches that no flush has.
  lemma HandedOver<B, M>(p: Progress<M>, events: seq<Event<B>>, e: Event<B>, c: Config<B, M>)
    requires Consistent(p, events, c)
    ensures var q := if e.Scan? then Noted(p, e.record, c) else p;
            var found := Matching(Scanned(events + [e]), c.accepts);
            && |Messages(p.flushes)| <= |found|
            && q.batch == Render(found, c.render)[|Messages(p.flushes)|..]
            && q.flushes == p.flushes
            && q.scanned == |Scanned(events + [e])| && q.matched == |found|
  {
    hide Messages, Scanned, Matching, ResumeOffsets, LastN, Unpaused, Advance;
    if e.Scan? {
      ScanEvent(p, events, e.record, c);
    } else {
      QuietEvent(p, events, e, c);
    }
  }

  /** When the timer has just fired, or the session has ended, every match has been handed over. */
  lemma TimerFlushesAll<B, M>(input: seq<Event<B>>, c: Config<B, M>)
    requires input != [] && (input[|input| - 1].Tick? || input[|input| - 1].Stop?)
    ensures var p := Progressed(Fresh<M>(), false, input, c).0;
            && p.batch == [] && Messages(p.flushes) == Render(Matching(Scanned(input), c.accepts), c.render)
            && p.ring == LastN(Render(Matching(Scanned(input), c.accepts), c.render), c.capacity)
  {
    EverySessionIsConsistent(input, c);
    LastFlushes(Fresh<M>(), false, input, c);
    FoundMessages(Progressed(Fresh<M>(), false, input, c).0, input, c);
  }

  lemma LastFlushes<B, M>(p: Progress<M>, paused: bool, input: seq<Event<B>>, c: Config<B, M>)
    ensures Progressed(p, paused, [], c) == (p, paused)
    ensures input != [] && (input[|input| - 1].Tick? || input[|input| - 1].Stop?) ==>
              Progressed(p, paused, input, c).0.batch == []
  {
  }

  lemma FoundMessages<B, M>(p: Progress<M>, events: seq<Event<B>>, c: Config<B, M>)
    requires Consistent(p, events, c)
    ensures Messages(p.flushes) + p.batch == Render(Matching(Scanned(events), c.accepts), c.render)
    ensures p.batch == [] ==> Messages(p.flushes) == Render(Matching(Scanned(events), c.accepts), c.render)
  {
    hide Scanned, Messages, Render, Matching;
    assert Messages(p.flushes) + [] == Messages(p.flushes);
  }

  class StreamSession<!B, M(0)> {
    const config: Config<B, M>
    const ring: Ring<M>
    var partitionOffsets: Offsets
    var totalScanned: nat
    var totalMatched: nat
    var paused: bool
    var batch: seq<M>
    var emitted: seq<Flush<M>>
    // History: every flush, and the events so far.
    ghost var flushes: seq<Flush<M>>
    ghost var events: seq<Event<B>>

    ghost predicate Shape()
      reads this, ring
    {
      ring.Valid() && ring.capacity == config.capacity
    }

    ghost function View(): Progress<M>
      requires Shape()
      reads this, ring, ring.data
    {
      Progress(flushes, batch, totalScanned, totalMatched, ring.Contents(), emitted, partitionOffsets)
    }

    // What is true between events.
    ghost predicate Valid()
      reads this, ring, ring.data
    {
      && Shape() && Consistent(View(), events, config) && WellFlushed(flushes) && |batch| < BATCH_SIZE
      && FlagIs(events, paused)
    }

    constructor (accepts: Record<B> -> bool, render: Record<B> -> M, capacity: int, hasEmitter: bool)
      ensures Valid() && fresh(ring) && fresh(ring.data) && events == [] && !paused
      ensures config == Config(accepts, render, if capacity <= 0 then 10_000 else capacity, hasEmitter)
    {
      config := Config(accepts, render, if capacity <= 0 then RING_CAPACITY else capacity, hasEmitter);
      ring := new Ring(capacity);
      partitionOffsets, totalScanned, totalMatched, paused := map[], 0, 0, false;
      batch, emitted, flushes, events := [], [], [], [];
    }

    method FlushBatch()
      requires Shape() && Consistent(View(), events, config) && WellFlushed(flushes) && |batch| <= BATCH_SIZE
      requires FlagIs(events, paused)
      modifies this`batch, this`emitted, this`flushes, ring, ring.data
      ensures Valid() && ring.data == old(ring.data) && View() == Flushed(old(View()), paused, config)
    {
      if batch == [] { return; }
      FlushStep(View(), events, paused, config);
      WellFlushedStep(View(), events, paused, config);
      hide Consistent, WellFlushed, InRing, LastN, FlagIs;
      FlushPending();
    }

    method FlushPending()
      requires Shape()
      modifies this`batch, this`emitted, this`flushes, ring, ring.data
      ensures Shape() && ring.data == old(ring.data) && View() == FlushedBatch(old(View()), paused, config)
    {
      hide InRing, LastN;
      var msgs := batch;
      batch := [];
      ring.AppendBatch(msgs);
      flushes := flushes + [Flush(msgs, totalScanned, totalMatched, paused)];
      Emit(Flush(msgs, totalScanned, totalMatched, paused));
    }

    method Emit(f: Flush<M>)
      modifies this`emitted
      ensures emitted == if config.hasEmitter && !f.paused then old(emitted) + [f] else old(emitted)
    {
      if !config.hasEmitter || f.paused { return; }
      emitted := emitted + [f];
    }

    // One iteration over a polled record.
    method ScanRecord(record: Record<B>)
      requires Valid()
      modifies this`partitionOffsets, this`totalScanned, this`totalMatched, this`batch, this`emitted, this`flushes,
               this`events, ring, ring.data
      ensures Valid() && ring.data == old(ring.data) && events == old(events) + [Scan(record)]
      ensures View() == Handled(old(View()), paused, Scan(record), config)
    {
      ScanEvent(View(), events, record, config);
      FlagStep(events, paused, Scan(record));
      hide Consistent, WellFlushed, InRing, FlagIs;
      NoteRecord(record);
      if |batch| >= BATCH_SIZE { FlushBatch(); }
    }

    method NoteRecord(record: Record<B>)
      requires Shape()
      modifies this`partitionOffsets, this`totalScanned, this`totalMatched, this`batch, this`events
      ensures Shape() && View() == Noted(old(View()), record, config) && events == old(events) + [Scan(record)]
    {
      hide InRing;
      totalScanned := totalScanned + 1;
      partitionOffsets := Advance(partitionOffsets, record);
      events := events + [Scan(record)];
      if !config.accepts(record) { return; }
      totalMatched := totalMatched + 1;
      batch := batch + [config.render(record)];
    }

    // The events that scan nothing: the timer, a pause or resume, the end.
    method HandleOther(e: Event<B>)
      requires Valid() && !e.Scan?
      modifies this`batch, this`emitted, this`flushes, this`events, this`paused, ring, ring.data
      ensures Valid() && ring.data == old(ring.data) && events == old(events) + [e]
      ensures View() == Handled(old(View()), old(paused), e, config) && paused == PausedAfter(old(paused), e)
    {
      QuietEvent(View(), events, e, config);
      FlagStep(events, paused, e);
      hide FlagIs;
      events := events + [e];
      if e.SetPaused? {
        paused := e.on;
      } else {
        FlushBatch();
      }
    }

    method Handle(e: Event<B>)
      requires Valid()
      modifies this`partitionOffsets, this`totalScanned, this`totalMatched, this`batch, this`emitted, this`flushes,
               this`events, this`paused, ring, ring.data
      ensures Valid() && ring.data == old(ring.data) && events == old(events) + [e]
      ensures View() == Handled(old(View()), old(paused), e, config) && paused == PausedAfter(old(paused), e)
      ensures e.Tick? || e.Stop? ==> batch == []
    {
      hide Consistent, WellFlushed, InRing, FlagIs;
      if e.Scan? { ScanRecord(e.record); } else { HandleOther(e); }
    }

    // What the loop makes of one poll: a failed one is dropped with all it brought.
    method HandlePoll(records: seq<Record<B>>, failed: bool)
      requires Valid()
      modifies this`partitionOffsets, this`totalScanned, this`totalMatched, this`batch, this`emitted, this`flushes,
               this`events, this`paused, ring, ring.data
      ensures Valid() && ring.data == old(ring.data)
      ensures events == old(events) + PollEvents(records, failed)
      ensures Scanned(events) == Scanned(old(events)) + (if failed then [] else records)
      ensures (View(), paused) == Progressed(old(View()), old(paused), PollEvents(records, failed), config)
    {
      PollScans(events, records);
      if failed { return; }
      Run(PollEvents(records, failed));
    }

    /**
     The loop, driven by what happens to the session until it ends. Between events fewer than
     fifty messages are pending, and flushed and pending messages are the matches in order.
     */
    method Run(input: seq<Event<B>>)
      requires Valid()
      modifies this`partitionOffsets, this`totalScanned, this`totalMatched, this`batch, this`emitted, this`flushes,
               this`events, this`paused, ring, ring.data
      ensures Valid() && ring.data == old(ring.data) && events == old(events) + input
      ensures (View(), paused) == Progressed(old(View()), old(paused), input, config)
      ensures Messages(flushes) + batch == Render(Matching(Scanned(events), config.accepts), config.render)
      ensures input != [] && (input[|input| - 1].Tick? || input[|input| - 1].Stop?) ==>
                && batch == [] && Messages(flushes) == Render(Matching(Scanned(events), config.accepts), config.render)
    {
      ghost var p, was, all := View(), paused, events;
      LastFlushes(p, was, input, config);
      assert input[..|input|] == input && all + input[..0] == all;
      hide Consistent, WellFlushed, Scanned, Messages, Render, Matching, InRing, Handled, Progressed, FlagIs;
      for i := 0 to |input|
        invariant Valid() && ring.data == old(ring.data) && events == all + input[..i]
        invariant (View(), paused) == Progressed(p, was, input[..i], config)
      {
        OneMoreEvent(p, was, input, i, config);
        CatAssociates(all, input[..i], [input[i]]);
        CatTake(input, i);
        Handle(input[i]);
      }
      FoundMessages(View(), events, config);
    }

    // kafka/stream/messages: a limit that is not positive means 100.
    method StreamMessages(offset: int, limit: int) returns (msgs: seq<M>)
      requires Valid()
      ensures msgs == PageOf(LastN(Messages(flushes), config.capacity), offset, if limit <= 0 then 100 else limit)
    {
      msgs := ring.Page(offset, if limit <= 0 then 100 else limit);
    }
  }
}
