/**
 The cursor store as an object.  The eviction order is a slice: a window of a backing array
 that Prune compacts, Remove shifts and Append extends in place, reallocating when full.
 */
module CursorTable {
  import opened CursorStore

  class Cursors<Row> {
    var ttl: int
    var capacity: nat
    var maxRows: nat
    var sessions: map<Id, Session<Row>>
    // The order is buf[lo..lo + len].
    var buf: array<Id>
    var lo: nat
    var len: nat

    ghost predicate Valid()
      reads this
    {
      lo + len <= buf.Length
    }

    ghost function Order(): seq<Id>
      requires Valid()
      reads this, buf
    {
      buf[lo..lo + len]
    }

    ghost function View(): State<Row>
      requires Valid()
      reads this, buf
    {
      State(ttl, capacity, maxRows, sessions, Order())
    }

    constructor (ttl: int, capacity: int, maxRows: int)
      ensures Valid() && fresh(buf)
      ensures View() == State(if ttl <= 0 then 600_000_000_000 else ttl, if capacity <= 0 then 8 else capacity,
                              if maxRows <= 0 then 10_000 else maxRows, map[], [])
    {
      this.ttl := if ttl <= 0 then 600_000_000_000 else ttl;
      this.capacity := if capacity <= 0 then 8 else capacity;
      this.maxRows := if maxRows <= 0 then 10_000 else maxRows;
      sessions, buf, lo, len := map[], new Id[0], 0, 0;
    }

    // Array accesses, seen as operations on the array's contents.
    static method Get(buf: array<Id>, k: nat) returns (id: Id)
      requires k < buf.Length
      ensures id == buf[..][k]
    {
      id := buf[k];
    }

    static method Set(buf: array<Id>, k: nat, id: Id)
      requires k < buf.Length
      modifies buf
      ensures buf[..] == old(buf[..])[k := id]
    {
      buf[k] := id;
    }

    static lemma Window(buf: array<Id>, lo: nat, n: nat)
      requires lo + n <= buf.Length
      ensures buf[lo..lo + n] == buf[..][lo..lo + n]
    {
    }

    static method CopyWindow(buf: array<Id>, lo: nat, len: nat) returns (bigger: array<Id>)
      requires lo + len <= buf.Length
      ensures fresh(bigger) && bigger.Length == 2 * len + 1
      ensures bigger[..len] == buf[..][lo..lo + len]
    {
      ghost var w := buf[..];
      bigger := new Id[2 * len + 1](_ => "");
      var i := 0;
      while i < len
        invariant i <= len && fresh(bigger) && bigger.Length == 2 * len + 1 && buf[..] == w
        invariant bigger[..i] == w[lo..lo + i]
        modifies bigger
      {
        bigger[i] := buf[lo + i];
        assert bigger[..i + 1] == bigger[..i] + [w[lo + i]];
        i := i + 1;
      }
    }

    // A larger backing array with the window copied to its front.
    method Grow()
      requires Valid()
      modifies this`buf, this`lo
      ensures Valid() && fresh(buf) && lo + len < buf.Length
      ensures View() == old(View())
    {
      Window(buf, lo, len);
      var bigger := CopyWindow(buf, lo, len);
      buf, lo := bigger, 0;
    }

    // Appends an id, in place if the backing array has room.
    method Append(id: Id)
      requires Valid()
      modifies this, buf
      ensures Valid() && (buf == old(buf) || fresh(buf))
      ensures View() == old(View()).(order := old(Order()) + [id])
    {
      if lo + len == buf.Length { Grow(); }
      Window(buf, lo, len);
      Set(buf, lo + len, id);
      Window(buf, lo, len + 1);
      len := len + 1;
    }

    // A backing array w with the window's elements at+1..i+1 moved one place to the left.
    static ghost function Shifted(w: seq<Id>, lo: nat, at: nat, i: nat): (r: seq<Id>)
      requires at <= i && lo + i < |w|
      ensures |r| == |w|
    {
      w[..lo + at] + w[lo + at + 1..lo + i + 1] + w[lo + i..]
    }

    static lemma ShiftedStep(w: seq<Id>, lo: nat, at: nat, i: nat)
      requires at <= i && lo + i + 1 < |w|
      ensures Shifted(w, lo, at, i)[lo + i + 1] == w[lo + i + 1]
      ensures Shifted(w, lo, at, i)[lo + i := w[lo + i + 1]] == Shifted(w, lo, at, i + 1)
    {
    }

    lemma ShiftedWindow(w: seq<Id>, lo: nat, at: nat, len: nat)
      requires at < len && lo + len <= |w|
      ensures Shifted(w, lo, at, len - 1)[lo..lo + len - 1] == w[lo..lo + len][..at] + w[lo..lo + len][at + 1..]
    {
    }

    // Moves what stands behind one place to the left.
    static method ShiftLeft(buf: array<Id>, lo: nat, at: nat, len: nat)
      requires at < len && lo + len <= buf.Length
      modifies buf
      ensures buf[..] == Shifted(old(buf[..]), lo, at, len - 1)
    {
      ghost var w := buf[..];
      var i := at;
      while i + 1 < len
        invariant at <= i < len && buf[..] == Shifted(w, lo, at, i)
      {
        hide Shifted;
        ShiftedStep(w, lo, at, i);
        var id := Get(buf, lo + i + 1);
        Set(buf, lo + i, id);
        i := i + 1;
      }
    }

    method RemoveAt(at: nat)
      requires Valid() && at < len
      modifies this`len, buf
      ensures Valid()
      ensures View() == old(View()).(order := old(Order())[..at] + old(Order())[at + 1..])
    {
      ghost var w := buf[..];
      ShiftLeft(buf, lo, at, len);
      ShiftedWindow(w, lo, at, len);
      hide Shifted;
      Window(buf, lo, len - 1);
      assert old(Order()) == w[lo..lo + len];
      len := len - 1;
    }

    // Removes the first occurrence, if there is one.
    method RemoveFirst(id: Id)
      requires Valid()
      modifies this`len, buf
      ensures Valid()
      ensures View() == old(View()).(order := Remove(old(Order()), id))
    {
      var i := 0;
      while i < len
        invariant i <= len && id !in Order()[..i]
      {
        if buf[lo + i] == id {
          RemoveSplit(Order(), id, i);
          RemoveAt(i);
          return;
        }
        i := i + 1;
      }
      RemoveSplit(Order(), id, len);
    }

    lemma {:induction false} RemoveSplit(order: seq<Id>, id: Id, i: nat)
      requires i <= |order| && id !in order[..i] && (i < |order| ==> order[i] == id)
      ensures Remove(order, id) == order[..i] + (if i < |order| then order[i + 1..] else [])
      decreases i
    {
      if 0 < i {
        assert order[0] in order[..i] && order[1..][..i - 1] == order[..i][1..];
        RemoveSplit(order[1..], id, i - 1);
      }
    }

    // A backing array w whose window has been overwritten from the left with `done`.
    ghost function Compacted(w: seq<Id>, lo: nat, done: seq<Id>): (r: seq<Id>)
      requires lo + |done| <= |w|
      ensures |r| == |w|
    {
      w[..lo] + done + w[lo + |done|..]
    }

    lemma CompactedFacts(w: seq<Id>, lo: nat, done: seq<Id>, i: nat, id: Id)
      requires lo + |done| <= lo + i < |w|
      ensures Compacted(w, lo, done)[lo + i] == w[lo + i]
      ensures Compacted(w, lo, done)[lo + |done| := id] == Compacted(w, lo, done + [id])
    {
    }

    // The state of the compaction after i ids: `done` are kept, `left` are the sessions left.
    ghost predicate Compacting(w: seq<Id>, lo: nat, order: seq<Id>, before: map<Id, Session<Row>>, now: int, i: nat,
                               done: seq<Id>, contents: seq<Id>, left: map<Id, Session<Row>>) {
      && i <= |order| && lo + |order| <= |w| && order == w[lo..lo + |order|]
      && done == Kept(order[..i], before, now) && |done| <= i
      && contents == Compacted(w, lo, done)
      && left == Surviving(before, order[..i], now)
    }

    lemma CompactStep(w: seq<Id>, lo: nat, order: seq<Id>, before: map<Id, Session<Row>>, now: int, i: nat,
                      done: seq<Id>, contents: seq<Id>, left: map<Id, Session<Row>>)
      requires Compacting(w, lo, order, before, now, i, done, contents, left) && i < |order|
      ensures lo + i < |contents|
      ensures var id := contents[lo + i];
              if id in left && now < left[id].expiresAt
              then Compacting(w, lo, order, before, now, i + 1, done + [id], contents[lo + |done| := id], left)
              else Compacting(w, lo, order, before, now, i + 1, done, contents, left - {id})
    {
      hide Surviving, Kept, Compacted;
      assert order[i] == w[lo + i];
      CompactedFacts(w, lo, done, i, order[i]);
      PruneStep(before, order, i, now);
    }

    lemma CompactEnds(w: seq<Id>, lo: nat, order: seq<Id>, before: map<Id, Session<Row>>, now: int, i: nat,
                      done: seq<Id>, contents: seq<Id>, left: map<Id, Session<Row>>)
      requires lo + |order| <= |w| && order == w[lo..lo + |order|]
      ensures Compacting(w, lo, order, before, now, 0, [], w, before)
      ensures Compacting(w, lo, order, before, now, |order|, done, contents, left) ==>
                && done == Kept(order, before, now) && left == Surviving(before, order, now)
                && lo + |done| <= |w| && contents == Compacted(w, lo, done)
    {
      assert order[..|order|] == order;
      assert Compacted(w, lo, []) == w;
      assert Surviving(before, order[..0], now) == before;
    }

    // Moves the live ids to the front of the backing array, over the ids read so far.
    method CompactLive(now: int) returns (kept: nat)
      requires Valid()
      modifies this`sessions, buf
      ensures sessions == Surviving(old(sessions), old(Order()), now)
      ensures kept == |Kept(old(Order()), old(sessions), now)| <= len
      ensures buf[..] == Compacted(old(buf[..]), lo, Kept(old(Order()), old(sessions), now))
    {
      hide Surviving, Kept, Compacted, Compacting;
      ghost var order, before, w := Order(), sessions, buf[..];
      Window(buf, lo, len);
      var i := 0;
      kept := 0;
      ghost var done: seq<Id> := [];
      CompactEnds(w, lo, order, before, now, 0, [], w, before);
      while i < len
        invariant i <= len == |order| && kept == |done| <= i
        invariant Compacting(w, lo, order, before, now, i, done, buf[..], sessions)
      {
        CompactStep(w, lo, order, before, now, i, done, buf[..], sessions);
        var id := Get(buf, lo + i);
        if id in sessions && now < sessions[id].expiresAt {
          Set(buf, lo + kept, id);
          kept := kept + 1;
          done := done + [id];
        } else {
          sessions := sessions - {id};
        }
        i := i + 1;
      }
      CompactEnds(w, lo, order, before, now, i, done, buf[..], sessions);
    }

    method Prune(now: int)
      requires Valid()
      modifies this`sessions, this`len, buf
      ensures Valid() && View() == Pruned(old(View()), now)
    {
      ghost var done := Kept(Order(), sessions, now);
      hide Surviving, Kept;
      var kept := CompactLive(now);
      Window(buf, lo, kept);
      len := kept;
    }

    lemma PruneStep(before: map<Id, Session<Row>>, order: seq<Id>, i: nat, now: int)
      requires i < |order|
      ensures var id, left := order[i], Surviving(before, order[..i], now);
              && (id in left && now < left[id].expiresAt <==> IsLive(before, id, now))
              && Surviving(before, order[..i + 1], now) == (if IsLive(before, id, now) then left else left - {id})
              && Kept(order[..i + 1], before, now) ==
                   Kept(order[..i], before, now) + (if IsLive(before, id, now) then [id] else [])
    {
      var id, left := order[i], Surviving(before, order[..i], now);
      assert order[..i + 1] == order[..i] + [id] && order[..i + 1][..i] == order[..i];
      assert Surviving(before, order[..i + 1], now) == if IsLive(before, id, now) then left else left - {id};
    }

    // Evicts from the front while there are too many, moving the window's start.
    method Trim()
      requires Valid()
      modifies this`sessions, this`lo, this`len
      ensures Valid() && View() == Trimmed(old(View()))
    {
      while len > capacity
        invariant Valid() && buf == old(buf) && ttl == old(ttl) && capacity == old(capacity) && maxRows == old(maxRows)
        invariant Trimmed(View()) == Trimmed(old(View()))
      {
        ghost var s := View();
        sessions := sessions - {buf[lo]};
        lo, len := lo + 1, len - 1;
        assert View() == s.(sessions := s.sessions - {s.order[0]}, order := s.order[1..]);
      }
    }

    method PutRows(rows: seq<Row>, topic: string, now: int, id: Id)
      requires Valid()
      modifies this, buf
      ensures Valid() && (buf == old(buf) || fresh(buf))
      ensures View() == Put(old(View()), id, rows, topic, now)
    {
      assert NewSession(Pruned(View(), now), rows, topic, now) == NewSession(View(), rows, topic, now);
      hide Pruned, Trimmed, NewSession;
      Prune(now);
      var session := MakeSession(rows, topic, now);
      AddSession(id, session);
      Trim();
    }

    method MakeSession(rows: seq<Row>, topic: string, now: int) returns (session: Session<Row>)
      requires Valid()
      ensures session == NewSession(View(), rows, topic, now)
    {
      var truncated := |rows| > maxRows;
      session := Session(topic, if truncated then rows[..maxRows] else rows, truncated, 0, now + ttl);
    }

    method AddSession(id: Id, session: Session<Row>)
      requires Valid()
      modifies this, buf
      ensures Valid() && (buf == old(buf) || fresh(buf))
      ensures View() == old(View()).(sessions := old(sessions)[id := session], order := old(Order()) + [id])
    {
      sessions := sessions[id := session];
      Append(id);
    }

    method SetTTL(d: int)
      requires Valid()
      modifies this`ttl
      ensures Valid() && View() == SetTtl(old(View()), d)
    {
      if d <= 0 { return; }
      ttl := d;
    }

    method ChangeCapacity(size: int)
      requires Valid()
      modifies this
      ensures Valid() && buf == old(buf) && View() == SetCapacity(old(View()), size)
    {
      hide Trimmed;
      if size <= 0 { return; }
      capacity := size;
      Trim();
    }

    method NextRows(id: Id, n: int, offset: int, now: int) returns (r: Lookup<Row>)
      requires Valid()
      modifies this, buf
      ensures Valid() && (buf == old(buf) || fresh(buf))
      ensures r == Answer(old(View()), id, n, offset, now)
      ensures View() == Next(old(View()), id, n, offset, now)
    {
      hide Remove;
      if id !in sessions { return Unknown; }
      var session := sessions[id];
      if now >= session.expiresAt {
        sessions := sessions - {id};
        RemoveFirst(id);
        return Expired;
      }
      RemoveFirst(id);
      Append(id);
      var page := ReadPage(session, n, offset);
      sessions := sessions[id := session.(offset := page.nextOffset)];
      return Found(page);
    }

    method ReadPage(session: Session<Row>, n: int, offset: int) returns (p: Page<Row>)
      ensures p == CursorStore.Read(session, n, offset)
    {
      var count := if n <= 0 then PAGE else n;
      if count > PAGE { count := PAGE; }
      var from := offset;
      if from < 0 { from := session.offset; }
      if from > |session.rows| { from := |session.rows|; }
      var end := from + count;
      if end > |session.rows| { end := |session.rows|; }
      p := Page(session.rows[from..end], from, end, end >= |session.rows|);
    }
  }
}
