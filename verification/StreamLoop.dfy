/**
 The loop of the streaming consumer (backend/internal/kafkaconn/stream.go): it polls, scans
 what a poll brought record by record, and drops what came with a failed one. The user may
 pause or resume at any time in between.
 */
module StreamLoop {
  import opened Basics
  import opened Records
  import opened Stream

  datatype Step<B> = Poll(records: seq<Record<B>>, failed: bool) | ScanNext | Timer | Pause(on: bool) | End

  // The records still to be scanned, and what has happened to the session.
  datatype Loop<B> = Loop(queue: seq<Record<B>>, events: seq<Event<B>>)

  // The loop polls, looks at the timer and ends only when it has scanned all it polled.
  predicate Enabled<B>(l: Loop<B>, step: Step<B>) {
    match step
    case ScanNext => l.queue != []
    case Pause(_) => true
    case _ => l.queue == []
  }

  function Next<B>(l: Loop<B>, step: Step<B>): Loop<B>
    requires Enabled(l, step)
  {
    match step
    case Poll(records, failed) => if failed then l else l.(queue := records)
    case ScanNext => Loop(l.queue[1..], l.events + [Scan(l.queue[0])])
    case Timer => l.(events := l.events + [Tick])
    case Pause(on) => l.(events := l.events + [SetPaused(on)])
    case End => l.(events := l.events + [Stop])
  }

  // Some steps in a row, if they are possible.
  function After<B>(steps: seq<Step<B>>): Option<Loop<B>> {
    if steps == [] then Some(Loop([], []))
    else
      match After(steps[..|steps| - 1])
      case None => None
      case Some(l) => if Enabled(l, steps[|steps| - 1]) then Some(Next(l, steps[|steps| - 1])) else None
  }

  // Everything the polls brought, and what came with the failed ones.
  function Polled<B>(steps: seq<Step<B>>): seq<Record<B>> {
    if steps == [] then []
    else
      var last := steps[|steps| - 1];
      Polled(steps[..|steps| - 1]) + (if last.Poll? then last.records else [])
  }

  function Dropped<B>(steps: seq<Step<B>>): seq<Record<B>> {
    if steps == [] then []
    else
      var last := steps[|steps| - 1];
      Dropped(steps[..|steps| - 1]) + (if last.Poll? && last.failed then last.records else [])
  }

  // The session has scanned, and the loop will scan, what the other polls brought.
  function Delivered<B>(steps: seq<Step<B>>): seq<Record<B>> {
    if steps == [] then []
    else
      var last := steps[|steps| - 1];
      Delivered(steps[..|steps| - 1]) + (if last.Poll? && !last.failed then last.records else [])
  }

  lemma ScannedLast<B>(events: seq<Event<B>>, e: Event<B>)
    ensures Scanned(events + [e]) == Scanned(events) + (if e.Scan? then [e.record] else [])
  {
    assert (events + [e])[..|events|] == events;
  }

  /** Whatever the interleaving, what has been scanned and what is waiting are the deliveries in order. */
  lemma {:induction false} ScansTheDeliveries<B>(steps: seq<Step<B>>)
    requires After(steps).Some?
    ensures Scanned(After(steps).value.events) + After(steps).value.queue == Delivered(steps)
  {
    if steps != [] {
      var init, last := steps[..|steps| - 1], steps[|steps| - 1];
      var l := After(init).value;
      ScansTheDeliveries(init);
      hide Scanned;
      match last
      case Poll(records, failed) =>
      case ScanNext =>
        ScannedLast(l.events, Scan(l.queue[0]));
        assert l.queue == [l.queue[0]] + l.queue[1..];
      case Timer => ScannedLast(l.events, Tick);
      case Pause(on) => ScannedLast(l.events, SetPaused(on));
      case End => ScannedLast(l.events, Stop);
    }
  }

  lemma {:induction false} MatchesSplit<B>(steps: seq<Step<B>>, accepts: Record<B> -> bool)
    ensures var polled, delivered, dropped :=
              Matching(Polled(steps), accepts), Matching(Delivered(steps), accepts), Matching(Dropped(steps), accepts);
            |polled| == |delivered| + |dropped| && (dropped == [] ==> polled == delivered)
  {
    if steps != [] {
      var init, last := steps[..|steps| - 1], steps[|steps| - 1];
      var x := if last.Poll? && !last.failed then last.records else [];
      var y := if last.Poll? && last.failed then last.records else [];
      assert Polled(steps) == Polled(init) + (x + y);
      MatchesSplit(init, accepts);
      hide Matching;
      MatchingCat(Polled(init), x + y, accepts);
      MatchingCat(x, y, accepts);
      MatchingCat(Delivered(init), x, accepts);
      MatchingCat(Dropped(init), y, accepts);
    }
  }

  lemma {:induction false} NoMatches<B>(records: seq<Record<B>>, accepts: Record<B> -> bool)
    ensures Matching(records, accepts) == [] <==> forall r :: r in records ==> !accepts(r)
  {
    if records != [] {
      var init, last := records[..|records| - 1], records[|records| - 1];
      assert records == init + [last];
      NoMatches(init, accepts);
    }
  }

  /**
   When nothing waits, the session has seen the matches of everything polled, in order,
   exactly when no failed poll brought one.
   */
  lemma NothingLostIff<B>(steps: seq<Step<B>>, accepts: Record<B> -> bool)
    requires After(steps).Some? && After(steps).value.queue == []
    ensures Matching(Scanned(After(steps).value.events), accepts) == Matching(Polled(steps), accepts) <==>
            forall r :: r in Dropped(steps) ==> !accepts(r)
  {
    hide Polled, Scanned, Dropped, Delivered, After;
    var l := After(steps).value;
    ScansTheDeliveries(steps);
    assert Scanned(l.events) + [] == Scanned(l.events);
    MatchesSplit(steps, accepts);
    NoMatches(Dropped(steps), accepts);
  }

  /** So what a session flushes and holds back are then the matches of what the polls that did not fail brought. */
  lemma FlushesTheDeliveries<B, M>(steps: seq<Step<B>>, c: Config<B, M>)
    requires After(steps).Some? && After(steps).value.queue == []
    ensures var p := Progressed(Fresh<M>(), false, After(steps).value.events, c).0;
            Messages(p.flushes) + p.batch == Render(Matching(Delivered(steps), c.accepts), c.render)
  {
    hide Scanned, Delivered, After, Progressed, Messages, Render, Matching;
    var l := After(steps).value;
    ScansTheDeliveries(steps);
    assert Scanned(l.events) + [] == Scanned(l.events);
    EverySessionIsConsistent<B, M>(l.events, c);
  }

  // One failed poll that brings a match: the session ends without having seen it.
  lemma SomePollLosesAMatch() returns (steps: seq<Step<int>>)
    ensures After(steps).Some? && After(steps).value.queue == []
    ensures Matching(Polled(steps), _ => true) == [Record(0, 0, 0)]
    ensures Matching(Scanned(After(steps).value.events), _ => true) == []
  {
    var poll := Poll([Record(0, 0, 0)], true);
    steps := [poll, End];
    assert steps[..1] == [poll] && [poll][..0] == [];
    assert After([poll]) == Some(Loop([], []));
    assert Polled([poll]) == [Record(0, 0, 0)] && Polled(steps) == [Record(0, 0, 0)] + [];
    assert Scanned<int>([Stop]) == [];
    assert [Record(0, 0, 0)][..0] == [];
  }
}
