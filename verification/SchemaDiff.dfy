/**
 Grouping the edit script of two schema versions into hunks, and replaying the hunks as a
 patch (backend/internal/kafkaconn/schema.go).
 */
module SchemaDiff {
  import opened Basics
  import opened LineDiff

  const LF := '\n'
  const CR := '\r'

  // strings.ReplaceAll(text, "\r\n", "\n")
  function ReplaceCrLf(t: string): string {
    if t == [] then []
    else if |t| >= 2 && t[0] == CR && t[1] == LF then [LF] + ReplaceCrLf(t[2..])
    else [t[0]] + ReplaceCrLf(t[1..])
  }

  // Every carriage return becomes a line feed.
  function ReplaceCr(t: string): (r: string)
    ensures CR !in r
  {
    if t == [] then [] else [if t[0] == CR then LF else t[0]] + ReplaceCr(t[1..])
  }

  function SplitSchemaLines(text: string): seq<string> {
    if text == [] then [] else Split(ReplaceCr(ReplaceCrLf(text)), LF)
  }

  // A line holds no line break of any style.
  lemma SchemaLinesAreClean(text: string)
    ensures Without(SplitSchemaLines(text), LF) && Without(SplitSchemaLines(text), CR)
  {
    SplitClean(ReplaceCr(ReplaceCrLf(text)), LF);
  }

  // The three styles of a line break.
  datatype Break = Unix | Dos | Mac

  function BreakText(b: Break): string {
    match b case Unix => [LF] case Dos => [CR, LF] case Mac => [CR]
  }

  // The lines with a break of some style behind each but the last.
  function Broken(lines: seq<string>, breaks: seq<Break>): string
    requires lines != [] && |breaks| == |lines| - 1
  {
    if |lines| == 1 then lines[0] else lines[0] + (BreakText(breaks[0]) + Broken(lines[1..], breaks[1..]))
  }

  // No two breaks with nothing between them read as one.
  ghost predicate Apart(lines: seq<string>, breaks: seq<Break>)
    requires |breaks| == |lines| - 1
  {
    forall i :: 0 <= i < |breaks| - 1 && breaks[i].Mac? && lines[i + 1] == "" ==> !breaks[i + 1].Unix?
  }

  lemma {:induction false} NoBreakInHead(head: string, rest: string)
    requires CR !in head
    ensures ReplaceCrLf(head + rest) == head + ReplaceCrLf(rest)
  {
    if head == "" {
      assert head + rest == rest;
    } else {
      assert head[0] in head && (head + rest)[1..] == head[1..] + rest;
      NoBreakInHead(head[1..], rest);
      assert [head[0]] + head[1..] == head;
    }
  }

  lemma {:induction false} ReplaceCrCat(a: string, b: string)
    ensures ReplaceCr(a + b) == ReplaceCr(a) + ReplaceCr(b)
  {
    if a == "" {
      assert a + b == b;
    } else {
      assert (a + b)[1..] == a[1..] + b;
      ReplaceCrCat(a[1..], b);
    }
  }

  lemma {:induction false} NoCrReplaced(a: string)
    requires CR !in a
    ensures ReplaceCr(a) == a
  {
    if a != "" {
      assert a[0] in a && [a[0]] + a[1..] == a;
      NoCrReplaced(a[1..]);
    }
  }

  // A break of any style becomes a line feed.
  lemma BreakReplaced(b: Break, rest: string)
    requires b.Mac? && rest != "" ==> rest[0] != LF
    ensures ReplaceCr(ReplaceCrLf(BreakText(b) + rest)) == [LF] + ReplaceCr(ReplaceCrLf(rest))
  {
    var t := BreakText(b) + rest;
    match b {
      case Unix => assert t[1..] == rest;
      case Dos => assert t[2..] == rest;
      case Mac => assert t[1..] == rest;
    }
    var head := if b.Mac? then [CR] else [LF];
    assert ReplaceCrLf(t) == head + ReplaceCrLf(rest);
    ReplaceCrCat(head, ReplaceCrLf(rest));
    assert ReplaceCr(head) == [LF] + ReplaceCr("");
  }

  lemma {:induction false} BreaksReplaced(lines: seq<string>, breaks: seq<Break>)
    requires lines != [] && |breaks| == |lines| - 1 && Apart(lines, breaks)
    requires Without(lines, LF) && Without(lines, CR)
    ensures ReplaceCr(ReplaceCrLf(Broken(lines, breaks))) == Join(lines, LF)
  {
    hide ReplaceCr, ReplaceCrLf, Join, BreakText;
    if |lines| == 1 {
      NoBreakInHead(lines[0], "");
      NothingReplaced();
      assert lines[0] + "" == lines[0];
      NoCrReplaced(lines[0]);
      assert Join(lines, LF) == lines[0] by { JoinOne(lines[0]); assert lines == [lines[0]]; }
    } else {
      var rest := Broken(lines[1..], breaks[1..]);
      assert forall i :: 0 <= i < |breaks| - 1 ==> breaks[1..][i] == breaks[i + 1] && lines[1..][i + 1] == lines[i + 2];
      BreaksReplaced(lines[1..], breaks[1..]);
      FirstOfRest(lines[1..], breaks[1..]);
      NoBreakInHead(lines[0], BreakText(breaks[0]) + rest);
      NoCrReplaced(lines[0]);
      ReplaceCrCat(lines[0], ReplaceCrLf(BreakText(breaks[0]) + rest));
      BreakReplaced(breaks[0], rest);
      JoinMore(lines);
    }
  }

  lemma NothingReplaced()
    ensures ReplaceCrLf("") == "" && ReplaceCr("") == ""
  {
  }

  lemma JoinOne(line: string)
    ensures Join([line], LF) == line
  {
  }

  lemma JoinMore(lines: seq<string>)
    requires |lines| > 1
    ensures Join(lines, LF) == lines[0] + ([LF] + Join(lines[1..], LF))
  {
  }

  // The rest starts with a line feed only if it starts with an empty line and such a break.
  lemma FirstOfRest(lines: seq<string>, breaks: seq<Break>)
    requires lines != [] && |breaks| == |lines| - 1 && Without(lines, LF)
    ensures var rest := Broken(lines, breaks);
            rest != "" && rest[0] == LF ==> lines[0] == "" && breaks != [] && breaks[0].Unix?
  {
    var rest := Broken(lines, breaks);
    if lines[0] != "" {
      assert rest[0] == lines[0][0] && lines[0][0] in lines[0];
    } else if breaks != [] {
      assert rest == BreakText(breaks[0]) + Broken(lines[1..], breaks[1..]);
    }
  }

  /**
   Whatever the styles of its breaks, a text splits into the lines it was broken at; the empty
   text has none.
   */
  lemma BrokenTextSplits(lines: seq<string>, breaks: seq<Break>)
    requires lines != [] && lines != [""] && |breaks| == |lines| - 1 && Apart(lines, breaks)
    requires Without(lines, LF) && Without(lines, CR)
    ensures SplitSchemaLines(Broken(lines, breaks)) == lines
    ensures SplitSchemaLines("") == []
  {
    hide ReplaceCr, ReplaceCrLf, Split, Join;
    BreaksReplaced(lines, breaks);
    SplitJoin(lines, LF);
    if |lines| > 1 {
      BreakIsText(breaks[0]);
    } else {
      assert lines == [lines[0]];
    }
  }

  lemma BreakIsText(b: Break)
    ensures BreakText(b) != ""
  {
  }

  datatype HunkOp = Modified | Removed | Added

  // An absent text is the empty string, as in the JSON the hunk is sent as.
  datatype Hunk = Hunk(op: HunkOp, path: string, before: string, after: string)

  // `same` counts the unchanged lines.
  datatype Summary = Summary(beforeLines: nat, afterLines: nat, same: nat, removed: nat, added: nat)

  function Texts(ops: seq<Op>): (r: seq<string>)
    ensures |r| == |ops| && forall i :: 0 <= i < |r| ==> r[i] == ops[i].text
  {
    seq(|ops|, i requires 0 <= i < |ops| => ops[i].text)
  }

  function DiffPath(line: nat): string { "line " + Decimal(line) }

  // --- Reading hunks back as a patch ---------------------------------------------------------

  // The 1-based line number a path names.
  function PathLine(path: string): Option<nat> {
    if |path| > 5 && path[..5] == "line " && AllDigits(path[5..]) && DecimalValue(path[5..]) > 0
    then Some(DecimalValue(path[5..])) else None
  }

  // Lines of the before text consumed, and lines written.
  datatype Replayed = Replayed(pos: nat, out: seq<string>)

  // Removals are located by their line in the before text, whose lines must be the hunk's
  // own; additions by their line in the after text.  Lines in between are copied.
  function Apply(st: Replayed, h: Hunk, a: seq<string>): Option<Replayed> {
    match PathLine(h.path)
    case None => None
    case Some(n) =>
      if h.op.Added? then
        var to := st.pos + (n - 1 - |st.out|);
        if st.pos <= to <= |a| then Some(Replayed(to, st.out + a[st.pos..to] + Split(h.after, LF))) else None
      else
        var gone := Split(h.before, LF);
        var to := n - 1 + |gone|;
        if st.pos <= n - 1 && to <= |a| && a[n - 1..to] == gone
        then Some(Replayed(to, st.out + a[st.pos..n - 1] + (if h.op.Modified? then Split(h.after, LF) else [])))
        else None
  }

  function Replay(hunks: seq<Hunk>, a: seq<string>): Option<Replayed> {
    if hunks == [] then Some(Replayed(0, [])) else
      match Replay(hunks[..|hunks| - 1], a)
      case None => None
      case Some(st) => Apply(st, hunks[|hunks| - 1], a)
  }

  function Patch(hunks: seq<Hunk>, a: seq<string>): Option<seq<string>> {
    match Replay(hunks, a)
    case None => None
    case Some(st) => if st.pos <= |a| then Some(st.out + a[st.pos..]) else None
  }

  // The lines the hunks themselves remove and add.
  function LinesRemoved(hunks: seq<Hunk>): nat {
    if hunks == [] then 0 else
      var last := hunks[|hunks| - 1];
      LinesRemoved(hunks[..|hunks| - 1]) + (if last.op.Added? then 0 else |Split(last.before, LF)|)
  }

  function LinesAdded(hunks: seq<Hunk>): nat {
    if hunks == [] then 0 else
      var last := hunks[|hunks| - 1];
      LinesAdded(hunks[..|hunks| - 1]) + (if last.op.Removed? then 0 else |Split(last.after, LF)|)
  }

  // --- Grouping ------------------------------------------------------------------------------

  lemma {:induction false} PrefixReads(ops: seq<Op>, k: nat)
    requires k <= |ops|
    ensures Before(ops[..k]) <= Before(ops) && After(ops[..k]) <= After(ops)
    decreases |ops| - k
  {
    if k == |ops| {
      assert ops[..k] == ops;
    } else {
      PrefixReads(ops, k + 1);
      assert ops[..k + 1] == ops[..k] + [ops[k]];
      Append(ops[..k], ops[k]);
    }
  }

  // Copying the lines up to i would complete what has been written.
  ghost predicate Pending(st: Replayed, a: seq<string>, i: nat, written: seq<string>) {
    st.pos <= i <= |a| && st.out + a[st.pos..i] == written
  }

  lemma PendingCopy(st: Replayed, a: seq<string>, i: nat, written: seq<string>)
    requires Pending(st, a, i, written) && i < |a|
    ensures Pending(st, a, i + 1, written + [a[i]])
  {
    assert a[st.pos..i + 1] == a[st.pos..i] + [a[i]];
  }

  // The hunks cover the operations done so far: what replay has not copied yet is unchanged.
  ghost predicate Covered(hunks: seq<Hunk>, done: seq<Op>, a: seq<string>) {
    && Before(done) <= a
    && Replay(hunks, a).Some?
    && Pending(Replay(hunks, a).value, a, |Before(done)|, After(done))
  }

  lemma CoveredEqual(hunks: seq<Hunk>, done: seq<Op>, op: Op, a: seq<string>)
    requires Covered(hunks, done, a) && op.Equal? && Before(done + [op]) <= a
    ensures Covered(hunks, done + [op], a)
  {
    hide Before, After, Kept, Numbered, Replay, Pending;
    Append(done, op);
    assert a[|Before(done)|] == op.text by {
      assert Before(done + [op])[|Before(done)|] == op.text;
    }
    PendingCopy(Replay(hunks, a).value, a, |Before(done)|, After(done));
  }

  // The hunk for the removed lines `gone` and the added lines `more`.
  function HunkFor(gone: seq<Op>, more: seq<Op>): Hunk
    requires gone != [] || more != []
  {
    if gone != [] && more != [] then
      Hunk(Modified, DiffPath(gone[0].line), Join(Texts(gone), LF), Join(Texts(more), LF))
    else if gone != [] then Hunk(Removed, DiffPath(gone[0].line), Join(Texts(gone), LF), "")
    else Hunk(Added, DiffPath(more[0].line), "", Join(Texts(more), LF))
  }

  lemma PathRoundTrip(n: nat)
    requires n > 0
    ensures PathLine(DiffPath(n)) == Some(n)
  {
    DecimalRoundTrip(n);
    assert DiffPath(n)[5..] == Decimal(n);
  }

  lemma HunkApplies(st: Replayed, gone: seq<Op>, more: seq<Op>, a: seq<string>, i: nat, written: seq<string>)
    requires gone != [] || more != []
    requires Without(Texts(gone), LF) && Without(Texts(more), LF)
    requires gone != [] ==> gone[0].line == i + 1
    requires gone == [] ==> more[0].line == |written| + 1
    requires Pending(st, a, i, written)
    requires i + |gone| <= |a| && a[i..i + |gone|] == Texts(gone)
    ensures Apply(st, HunkFor(gone, more), a) == Some(Replayed(i + |gone|, written + Texts(more)))
  {
    hide Texts, Split, Join, PathLine, DiffPath;
    if gone != [] {
      PathRoundTrip(gone[0].line);
      SplitJoin(Texts(gone), LF);
      if more != [] {
        SplitJoin(Texts(more), LF);
      } else {
        assert written + [] == written && written + Texts(more) == written;
      }
    } else {
      PathRoundTrip(more[0].line);
      SplitJoin(Texts(more), LF);
    }
  }

  lemma ReplayOneMore(hunks: seq<Hunk>, h: Hunk, a: seq<string>, st: Replayed)
    requires Replay(hunks, a).Some? && Apply(Replay(hunks, a).value, h, a) == Some(st)
    ensures Replay(hunks + [h], a) == Some(st)
  {
    assert (hunks + [h])[..|hunks|] == hunks;
  }

  ghost predicate IsRun(gone: seq<Op>, more: seq<Op>) {
    (forall x :: 0 <= x < |gone| ==> gone[x].Remove?) && (forall x :: 0 <= x < |more| ==> more[x].Add?)
  }

  lemma TextsLast(ops: seq<Op>)
    requires ops != []
    ensures Texts(ops) == Texts(ops[..|ops| - 1]) + [ops[|ops| - 1].text]
  {
  }

  lemma {:induction false} ReadRemoves(done: seq<Op>, gone: seq<Op>)
    requires IsRun(gone, [])
    ensures Before(done + gone) == Before(done) + Texts(gone)
    ensures After(done + gone) == After(done) && Kept(done + gone) == Kept(done)
    decreases |gone|
  {
    hide Before, After, Kept, Numbered, Texts;
    if gone == [] {
      assert done + gone == done;
    } else {
      var init, last := gone[..|gone| - 1], gone[|gone| - 1];
      ReadRemoves(done, init);
      assert done + gone == done + init + [last];
      Append(done + init, last);
      TextsLast(gone);
    }
  }

  lemma {:induction false} ReadAdds(done: seq<Op>, more: seq<Op>)
    requires IsRun([], more)
    ensures After(done + more) == After(done) + Texts(more)
    ensures Before(done + more) == Before(done) && Kept(done + more) == Kept(done)
    decreases |more|
  {
    hide Before, After, Kept, Numbered, Texts;
    if more == [] {
      assert done + more == done;
    } else {
      var init, last := more[..|more| - 1], more[|more| - 1];
      ReadAdds(done, init);
      assert done + more == done + init + [last];
      Append(done + init, last);
      TextsLast(more);
    }
  }

  lemma ReadRun(done: seq<Op>, gone: seq<Op>, more: seq<Op>)
    requires IsRun(gone, more)
    ensures Before(done + gone + more) == Before(done) + Texts(gone)
    ensures After(done + gone + more) == After(done) + Texts(more)
    ensures Kept(done + gone + more) == Kept(done)
  {
    hide Before, After, Kept, Numbered, Texts;
    ReadRemoves(done, gone);
    ReadAdds(done + gone, more);
  }

  // The texts at the end of a prefix of a clean sequence are clean.
  lemma SuffixClean(whole: seq<string>, head: seq<string>, tail: seq<string>)
    requires head + tail <= whole && Without(whole, LF)
    ensures Without(tail, LF)
    ensures whole[|head|..|head| + |tail|] == tail
  {
    forall x | 0 <= x < |tail|
      ensures LF !in tail[x] && whole[|head| + x] == tail[x]
    {
      assert (head + tail)[|head| + x] == tail[x];
    }
  }

  // What the numbering and the lines of a script say about a run of it.
  lemma RunFacts(ops: seq<Op>, k: nat, gone: seq<Op>, more: seq<Op>)
    requires Numbered(ops) && Without(Before(ops), LF) && Without(After(ops), LF) && IsRun(gone, more)
    requires k + |gone| + |more| <= |ops| && ops[..k + |gone| + |more|] == ops[..k] + gone + more
    ensures gone != [] ==> gone[0].line == |Before(ops[..k])| + 1
    ensures gone == [] && more != [] ==> more[0].line == |After(ops[..k])| + 1
    ensures Without(Texts(gone), LF) && Without(Texts(more), LF)
  {
    var m := k + |gone| + |more|;
    if gone + more != [] {
      assert ops[k] == ops[..m][k] == (gone + more)[0];
    }
    hide Before, After, Kept, Numbered, Texts;
    PrefixReads(ops, m);
    ReadRun(ops[..k], gone, more);
    SuffixClean(Before(ops), Before(ops[..k]), Texts(gone));
    SuffixClean(After(ops), After(ops[..k]), Texts(more));
  }

  lemma CoveredHunk(hunks: seq<Hunk>, done: seq<Op>, gone: seq<Op>, more: seq<Op>, a: seq<string>)
    requires Covered(hunks, done, a) && Before(done + gone + more) <= a
    requires (gone != [] || more != []) && IsRun(gone, more)
    requires gone != [] ==> gone[0].line == |Before(done)| + 1
    requires gone == [] ==> more[0].line == |After(done)| + 1
    requires Without(Texts(gone), LF) && Without(Texts(more), LF)
    ensures Covered(hunks + [HunkFor(gone, more)], done + gone + more, a)
  {
    hide Before, After, Kept, Numbered, Texts, Replay, Apply, HunkFor, Pending, Without;
    var i, written := |Before(done)|, After(done);
    ReadRun(done, gone, more);
    assert a[i..i + |gone|] == Texts(gone) by {
      assert (Before(done) + Texts(gone))[i..] == Texts(gone);
    }
    HunkApplies(Replay(hunks, a).value, gone, more, a, i, written);
    var st := Replayed(i + |gone|, written + Texts(more));
    ReplayOneMore(hunks, HunkFor(gone, more), a, st);
    CaughtUp(st, a);
  }

  lemma CaughtUp(st: Replayed, a: seq<string>)
    requires st.pos <= |a|
    ensures Pending(st, a, st.pos, st.out)
  {
  }

  // The summary counts the operations done so far, and the lines of the hunks.
  ghost predicate Counted(hunks: seq<Hunk>, sum: Summary, done: seq<Op>) {
    && LinesRemoved(hunks) == sum.removed && LinesAdded(hunks) == sum.added
    && sum.same == |Kept(done)|
    && sum.same + sum.removed == |Before(done)|
    && sum.same + sum.added == |After(done)|
  }

  lemma CountedEqual(hunks: seq<Hunk>, sum: Summary, done: seq<Op>, op: Op)
    requires Counted(hunks, sum, done) && op.Equal?
    ensures Counted(hunks, sum.(same := sum.same + 1), done + [op])
  {
    hide Before, After, Kept, Numbered;
    Append(done, op);
  }

  lemma CountedHunk(hunks: seq<Hunk>, sum: Summary, done: seq<Op>, gone: seq<Op>, more: seq<Op>)
    requires Counted(hunks, sum, done) && IsRun(gone, more) && (gone != [] || more != [])
    requires Without(Texts(gone), LF) && Without(Texts(more), LF)
    ensures Counted(hunks + [HunkFor(gone, more)],
                    sum.(removed := sum.removed + |gone|, added := sum.added + |more|), done + gone + more)
  {
    hide Before, After, Kept, Numbered, Texts, Split, Join, Without, HunkFor, LinesRemoved, LinesAdded;
    ReadRun(done, gone, more);
    HunkLines(gone, more);
    OneMoreHunk(hunks, HunkFor(gone, more));
  }

  lemma HunkLines(gone: seq<Op>, more: seq<Op>)
    requires (gone != [] || more != []) && Without(Texts(gone), LF) && Without(Texts(more), LF)
    ensures var h := HunkFor(gone, more);
            && (if h.op.Added? then gone == [] else |Split(h.before, LF)| == |gone|)
            && (if h.op.Removed? then more == [] else |Split(h.after, LF)| == |more|)
  {
    hide Split, Join, Without;
    if gone != [] { SplitJoin(Texts(gone), LF); }
    if more != [] { SplitJoin(Texts(more), LF); }
  }

  lemma OneMoreHunk(hunks: seq<Hunk>, h: Hunk)
    ensures LinesRemoved(hunks + [h]) == LinesRemoved(hunks) + (if h.op.Added? then 0 else |Split(h.before, LF)|)
    ensures LinesAdded(hunks + [h]) == LinesAdded(hunks) + (if h.op.Removed? then 0 else |Split(h.after, LF)|)
  {
    hide Split;
    assert (hunks + [h])[..|hunks|] == hunks;
  }

  // The maximal run of removals, then of additions, from position k on.
  method TakeRun(ops: seq<Op>, k: nat) returns (gone: seq<Op>, more: seq<Op>)
    requires k < |ops| && !ops[k].Equal?
    ensures IsRun(gone, more) && (gone != [] || more != [])
    ensures k + |gone| + |more| <= |ops| && ops[..k + |gone| + |more|] == ops[..k] + gone + more
    ensures var m := k + |gone| + |more|;
            m < |ops| ==> !ops[m].Add? && (more == [] ==> !ops[m].Remove?)
  {
    gone, more := [], [];
    var m := k;
    while m < |ops| && ops[m].Remove?
      invariant k <= m == k + |gone| <= |ops| && ops[..m] == ops[..k] + gone && IsRun(gone, [])
      invariant gone == [] ==> m == k
    {
      assert ops[..m + 1] == ops[..m] + [ops[m]];
      gone, m := gone + [ops[m]], m + 1;
    }
    while m < |ops| && ops[m].Add?
      invariant k <= m == k + |gone| + |more| <= |ops| && ops[..m] == ops[..k] + gone + more && IsRun(gone, more)
      invariant more == [] ==> m < |ops| ==> !ops[m].Remove?
    {
      assert ops[..m + 1] == ops[..m] + [ops[m]];
      more, m := more + [ops[m]], m + 1;
    }
  }

  // Where a hunk begins: at a change behind a kept line, or at a removal behind an addition.
  predicate StartsHunk(ops: seq<Op>, k: nat)
    requires k < |ops|
  {
    !ops[k].Equal? && (k == 0 || ops[k - 1].Equal? || (ops[k - 1].Add? && ops[k].Remove?))
  }

  function HunkStarts(ops: seq<Op>): nat {
    if ops == [] then 0
    else HunkStarts(ops[..|ops| - 1]) + (if StartsHunk(ops, |ops| - 1) then 1 else 0)
  }

  lemma HunkStartsStep(ops: seq<Op>, k: nat)
    requires k < |ops|
    ensures HunkStarts(ops[..k + 1]) == HunkStarts(ops[..k]) + (if StartsHunk(ops, k) then 1 else 0)
  {
    assert ops[..k + 1][..k] == ops[..k];
    assert k > 0 ==> ops[..k + 1][k - 1] == ops[k - 1];
  }

  lemma {:induction false} NoMoreStarts(ops: seq<Op>, k: nat, m: nat)
    requires k <= m <= |ops| && forall j :: k <= j < m ==> !StartsHunk(ops, j)
    ensures HunkStarts(ops[..m]) == HunkStarts(ops[..k])
  {
    if k < m {
      NoMoreStarts(ops, k, m - 1);
      HunkStartsStep(ops, m - 1);
    }
  }

  lemma RunIsOneHunk(ops: seq<Op>, k: nat, gone: seq<Op>, more: seq<Op>, m: nat)
    requires k < m == k + |gone| + |more| <= |ops| && ops[..m] == ops[..k] + gone + more && IsRun(gone, more)
    requires StartsHunk(ops, k) && (m < |ops| ==> !ops[m].Add? && (more == [] ==> !ops[m].Remove?))
    ensures HunkStarts(ops[..m]) == HunkStarts(ops[..k]) + 1
    ensures m < |ops| && !ops[m].Equal? ==> StartsHunk(ops, m)
  {
    forall j | k <= j < m ensures ops[j] == if j < k + |gone| then gone[j - k] else more[j - k - |gone|] {
      assert ops[j] == ops[..m][j];
    }
    HunkStartsStep(ops, k);
    NoMoreStarts(ops, k + 1, m);
  }

  lemma GroupEqual(hunks: seq<Hunk>, sum: Summary, ops: seq<Op>, k: nat, a: seq<string>)
    requires k < |ops| && ops[k].Equal? && Before(ops) == a
    requires Covered(hunks, ops[..k], a) && Counted(hunks, sum, ops[..k])
    ensures Covered(hunks, ops[..k + 1], a) && Counted(hunks, sum.(same := sum.same + 1), ops[..k + 1])
  {
    hide Before, After, Kept, Numbered, Replay, Pending, Texts, HunkFor, Covered, Counted, Without;
    hide LinesRemoved, LinesAdded;
    assert ops[..k + 1] == ops[..k] + [ops[k]];
    PrefixReads(ops, k + 1);
    CoveredEqual(hunks, ops[..k], ops[k], a);
    CountedEqual(hunks, sum, ops[..k], ops[k]);
  }

  lemma GroupRun(hunks: seq<Hunk>, sum: Summary, ops: seq<Op>, k: nat, gone: seq<Op>, more: seq<Op>, m: nat,
                 a: seq<string>)
    requires Numbered(ops) && Without(Before(ops), LF) && Without(After(ops), LF) && Before(ops) == a
    requires k <= m == k + |gone| + |more| <= |ops| && ops[..m] == ops[..k] + gone + more
    requires (gone != [] || more != []) && IsRun(gone, more)
    requires Covered(hunks, ops[..k], a) && Counted(hunks, sum, ops[..k])
    ensures Covered(hunks + [HunkFor(gone, more)], ops[..m], a)
    ensures Counted(hunks + [HunkFor(gone, more)],
                    sum.(removed := sum.removed + |gone|, added := sum.added + |more|), ops[..m])
  {
    hide Before, After, Kept, Numbered, Replay, Pending, Texts, HunkFor, Covered, Counted, Without;
    hide LinesRemoved, LinesAdded;
    RunFacts(ops, k, gone, more);
    PrefixReads(ops, m);
    CoveredHunk(hunks, ops[..k], gone, more, a);
    CountedHunk(hunks, sum, ops[..k], gone, more);
  }

  lemma AtEnd(hunks: seq<Hunk>, ops: seq<Op>, a: seq<string>, b: seq<string>)
    requires IsScript(ops, a, b) && Covered(hunks, ops, a)
    ensures Patch(hunks, a) == Some(b)
  {
    var st := Replay(hunks, a).value;
    assert a[st.pos..|a|] == a[st.pos..];
  }

  // The loop has grouped the first k operations.
  ghost predicate Grouped(hunks: seq<Hunk>, sum: Summary, ops: seq<Op>, k: nat, a: seq<string>) {
    && k <= |ops| && Covered(hunks, ops[..k], a) && Counted(hunks, sum, ops[..k])
    && |hunks| == HunkStarts(ops[..k]) && (k < |ops| && !ops[k].Equal? ==> StartsHunk(ops, k))
  }

  ghost predicate Groupable(ops: seq<Op>, a: seq<string>) {
    Numbered(ops) && Without(Before(ops), LF) && Without(After(ops), LF) && Before(ops) == a
  }

  lemma GroupedEqual(hunks: seq<Hunk>, sum: Summary, ops: seq<Op>, k: nat, a: seq<string>)
    requires Groupable(ops, a) && Grouped(hunks, sum, ops, k, a) && k < |ops| && ops[k].Equal?
    ensures Grouped(hunks, sum.(same := sum.same + 1), ops, k + 1, a)
  {
    hide Before, After, Numbered, Covered, Counted, Without, HunkStarts;
    GroupEqual(hunks, sum, ops, k, a);
    HunkStartsStep(ops, k);
  }

  lemma GroupedRun(hunks: seq<Hunk>, sum: Summary, ops: seq<Op>, k: nat, gone: seq<Op>, more: seq<Op>, m: nat,
                   a: seq<string>)
    requires Groupable(ops, a) && Grouped(hunks, sum, ops, k, a) && k < |ops| && !ops[k].Equal?
    requires k < m == k + |gone| + |more| <= |ops| && ops[..m] == ops[..k] + gone + more
    requires IsRun(gone, more) && (m < |ops| ==> !ops[m].Add? && (more == [] ==> !ops[m].Remove?))
    ensures Grouped(hunks + [HunkFor(gone, more)],
                    sum.(removed := sum.removed + |gone|, added := sum.added + |more|), ops, m, a)
  {
    hide Before, After, Numbered, Covered, Counted, Without, HunkStarts, HunkFor, StartsHunk;
    GroupRun(hunks, sum, ops, k, gone, more, m, a);
    RunIsOneHunk(ops, k, gone, more, m);
  }

  lemma NothingGrouped(ops: seq<Op>, a: seq<string>, b: seq<string>)
    requires IsScript(ops, a, b) && Numbered(ops) && Without(a, LF) && Without(b, LF)
    ensures Groupable(ops, a) && Grouped([], Summary(|a|, |b|, 0, 0, 0), ops, 0, a)
  {
    assert ops[..0] == [];
  }

  lemma AllGrouped(hunks: seq<Hunk>, sum: Summary, ops: seq<Op>, a: seq<string>, b: seq<string>)
    requires IsScript(ops, a, b) && Grouped(hunks, sum, ops, |ops|, a)
    ensures Patch(hunks, a) == Some(b) && Counted(hunks, sum, ops) && |hunks| == HunkStarts(ops)
  {
    assert ops[..|ops|] == ops;
    hide Covered, Counted, HunkStarts, Patch, IsScript;
    AtEnd(hunks, ops, a, b);
  }

  method GroupHunks(ops: seq<Op>, a: seq<string>, b: seq<string>) returns (hunks: seq<Hunk>, sum: Summary)
    requires IsScript(ops, a, b) && Numbered(ops)
    requires Without(a, LF) && Without(b, LF)
    ensures Patch(hunks, a) == Some(b)
    ensures sum.beforeLines == |a| && sum.afterLines == |b| && Counted(hunks, sum, ops)
    ensures |hunks| == HunkStarts(ops)
  {
    hide *;
    hunks, sum := [], Summary(|a|, |b|, 0, 0, 0);
    NothingGrouped(ops, a, b);
    var k := 0;
    while k < |ops|
      invariant k <= |ops| && Grouped(hunks, sum, ops, k, a)
      invariant sum.beforeLines == |a| && sum.afterLines == |b|
    {
      if ops[k].Equal? {
        GroupedEqual(hunks, sum, ops, k, a);
        sum := sum.(same := sum.same + 1);
        k := k + 1;
      } else {
        var gone, more := TakeRun(ops, k);
        var m := k + |gone| + |more|;
        GroupedRun(hunks, sum, ops, k, gone, more, m, a);
        sum := sum.(removed := sum.removed + |gone|, added := sum.added + |more|);
        hunks := hunks + [HunkFor(gone, more)];
        k := m;
      }
    }
    AllGrouped(hunks, sum, ops, a, b);
  }

  /**
   The whole diff: the hunks are a patch from the before lines to the after lines, and the
   summary's counts belong to an edit script that no other script beats.
   */
  method SchemaTextDiff(before: string, after: string) returns (hunks: seq<Hunk>, sum: Summary)
    ensures var a, b := SplitSchemaLines(before), SplitSchemaLines(after);
            && Patch(hunks, a) == Some(b)
            && sum.same == Best(a, b, 0, 0)
            && sum.same + sum.removed == sum.beforeLines == |a|
            && sum.same + sum.added == sum.afterLines == |b|
            && LinesRemoved(hunks) == sum.removed && LinesAdded(hunks) == sum.added
            && (forall script :: IsScript(script, a, b) ==> sum.removed + sum.added <= Cost(script))
            && (exists script :: IsScript(script, a, b) && Counted(hunks, sum, script) && |hunks| == HunkStarts(script))
  {
    var a, b := SplitSchemaLines(before), SplitSchemaLines(after);
    SchemaLinesAreClean(before);
    SchemaLinesAreClean(after);
    var ops := Walk(a, b);
    hunks, sum := GroupHunks(ops, a, b);
    forall script | IsScript(script, a, b)
      ensures sum.removed + sum.added <= Cost(script)
    {
      WalkIsCheapest(ops, script, a, b);
      CostOfKept(ops);
    }
  }
}
