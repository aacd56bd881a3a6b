/** When the two evaluators of JSON paths agree, and which token lists the parser can produce. */
module JsonPathAgreement {
  import opened Basics
  import opened JsonPath

  // --- Characters --------------------------------------------------------------------------------

  lemma NotSpaces()
    ensures '$' !in SPACES && '.' !in SPACES && '[' !in SPACES && ']' !in SPACES && '-' !in SPACES && '+' !in SPACES
    ensures forall c :: c in SPACES ==> !IsDigitChar(c)
  {
  }

  lemma NothingToTrim(s: string)
    requires s != "" ==> s[0] !in SPACES && s[|s| - 1] !in SPACES
    ensures TrimSpace(s) == s
  {
    hide SPACES;
  }

  lemma {:induction false} TrimLeftKeeps(s: string, c: char)
    requires c in s && c !in SPACES
    ensures c in TrimLeft(s, SPACES)
  {
    hide SPACES;
    if s[0] in SPACES {
      TrimLeftKeeps(s[1..], c);
    }
  }

  lemma {:induction false} TrimRightKeeps(s: string, c: char)
    requires c in s && c !in SPACES
    ensures c in TrimRight(s, SPACES)
  {
    hide SPACES;
    if s[|s| - 1] in SPACES {
      assert s == s[..|s| - 1] + [s[|s| - 1]];
      TrimRightKeeps(s[..|s| - 1], c);
    }
  }

  // A number has nothing to trim, and a text with a bracket is none.
  lemma NumbersHaveNoBrackets(s: string)
    ensures Atoi(s).Some? ==> TrimSpace(s) == s && '[' !in s && ']' !in s && '.' !in s
    ensures ']' in s ==> Atoi(TrimSpace(s)).None?
  {
    NotSpaces();
    hide SPACES, Atoi;
    if Atoi(s).Some? {
      assert s[0] !in SPACES && s[|s| - 1] !in SPACES;
      NothingToTrim(s);
    }
    if ']' in s {
      TrimLeftKeeps(s, ']');
      TrimRightKeeps(TrimLeft(s, SPACES), ']');
    }
  }

  // --- One segment -------------------------------------------------------------------------------

  // At most one opening bracket.
  predicate OneIndex(s: string) { forall i, j :: 0 <= i < j < |s| && s[i] == '[' ==> s[j] != '[' }

  ghost predicate PlainKeys(tokens: seq<Token>) {
    forall i :: 0 <= i < |tokens| && tokens[i].Key? ==> '[' !in tokens[i].key
  }

  lemma PartUnfolds(s: string)
    requires '[' in s && PartTokens(s).Some?
    ensures Indexed(s).Some? && PartTokens(Indexed(s).value.1).Some?
    ensures PartTokens(s).value == Indexed(s).value.0 + PartTokens(Indexed(s).value.1).value
  {
    hide Indexed;
  }

  // The pieces of a segment that starts with a key, if any, and an index.
  lemma IndexedPieces(s: string) returns (b: nat, e: nat, number: string, rest: string)
    requires '[' in s && Indexed(s).Some?
    ensures b == IndexOf(s, '[') && e == IndexOf(s[b..], ']') && e >= 2 && b + e < |s| && s[b + e] == ']'
    ensures number == s[b + 1..b + e] && rest == s[b + e + 1..]
    ensures Atoi(number).Some? && 0 <= Atoi(number).value && '[' !in number && ']' !in number
    ensures Indexed(s).value == (Steps(s[..b], Atoi(number)), rest)
    ensures rest != "" ==> rest[0] == '['
  {
    hide IndexOf, Atoi, Steps;
    b := IndexOf(s, '[');
    e := IndexOf(s[b..], ']');
    number, rest := s[b + 1..b + e], s[b + e + 1..];
    NumbersHaveNoBrackets(number);
  }

  lemma {:induction false} AcceptedEndsInBracket(s: string)
    requires '[' in s && PartTokens(s).Some?
    ensures s[|s| - 1] == ']'
    decreases |s|
  {
    hide Indexed, PartTokens, Atoi, IndexOf;
    PartUnfolds(s);
    var b, e, number, rest := IndexedPieces(s);
    if rest != "" {
      assert rest[0] in rest;
      AcceptedEndsInBracket(rest);
    }
  }

  // What the digest makes of a segment that ends in a bracket.
  lemma DigestReads(s: string, open: nat, inner: string, number: Option<int>)
    requires open == IndexOf(s, '[') && s[|s| - 1] == ']' && inner == s[open + 1..|s| - 1]
    requires number == Atoi(TrimSpace(inner))
    ensures number.None? ==> SegmentTokens(s) == Some([Key(s)])
    ensures number.Some? && 0 <= number.value ==> SegmentTokens(s) == Some(Steps(s[..open], number))
  {
    assert Steps(s, None) == [Key(s)];
    hide IndexOf, Atoi, TrimSpace, Steps, SplitIndexSuffix;
    SuffixReads(s, open, number);
  }

  lemma SuffixReads(s: string, open: nat, number: Option<int>)
    requires open == IndexOf(s, '[') && s[|s| - 1] == ']' && number == Atoi(TrimSpace(s[open + 1..|s| - 1]))
    ensures SplitIndexSuffix(s) == if number.None? then (s, None) else (s[..open], number)
  {
    hide IndexOf, Atoi, TrimSpace;
  }

  // The two readings of a segment without an index, with one, and with more.
  lemma NoIndex(s: string)
    requires s != "" && '[' !in s
    ensures SegmentTokens(s) == PartTokens(s) == Some([Key(s)])
  {
    assert Steps(s, None) == [Key(s)];
    hide Atoi, TrimSpace;
  }

  lemma SingleIndex(s: string, b: nat, e: nat, number: string)
    requires '[' in s && b == IndexOf(s, '[') && e >= 2 && b + e + 1 == |s| && s[b + e] == ']'
    requires number == s[b + 1..b + e]
    requires Atoi(number).Some? && 0 <= Atoi(number).value && '[' !in number && ']' !in number
    ensures OneIndex(s) && SegmentTokens(s) == Some(Steps(s[..b], Atoi(number)))
  {
    hide IndexOf, Atoi, TrimSpace, SegmentTokens, Steps;
    OnlyBracket(s, b, e);
    NumbersHaveNoBrackets(number);
    assert s[b + 1..|s| - 1] == number;
    DigestReads(s, b, number, Atoi(number));
  }

  lemma ManyIndexes(s: string, b: nat, e: nat)
    requires '[' in s && b == IndexOf(s, '[') && e >= 2 && b + e + 1 < |s| && s[b + e] == ']'
    requires s[b + e + 1] == '[' && s[|s| - 1] == ']'
    ensures !OneIndex(s) && SegmentTokens(s) == Some([Key(s)])
  {
    hide IndexOf, Atoi, TrimSpace, SegmentTokens, Steps;
    var inner := s[b + 1..|s| - 1];
    assert inner[e - 1] == s[b + e];
    NumbersHaveNoBrackets(inner);
    DigestReads(s, b, inner, None);
    assert s[b] == '[';
  }

  // With one index the two readings of a segment are the same; with more the digest sees one key.
  lemma {:induction false} SegmentReadings(s: string)
    requires s != "" && PartTokens(s).Some?
    ensures OneIndex(s) ==> SegmentTokens(s) == PartTokens(s)
    ensures !OneIndex(s) ==> SegmentTokens(s) == Some([Key(s)]) && '[' in s && |PartTokens(s).value| >= 2
    ensures |PartTokens(s).value| >= 1 && PlainKeys(PartTokens(s).value)
    decreases |s|
  {
    hide Indexed, Atoi, IndexOf, TrimSpace, SegmentTokens, PartTokens, OneIndex;
    if '[' in s {
      PartUnfolds(s);
      AcceptedEndsInBracket(s);
      var b, e, number, rest := IndexedPieces(s);
      assert PlainKeys(Steps(s[..b], Atoi(number))) && |Steps(s[..b], Atoi(number))| >= 1;
      if rest == "" {
        NoTokens();
        SingleIndex(s, b, e, number);
        assert PartTokens(s).value == Steps(s[..b], Atoi(number));
      } else {
        SegmentReadings(rest);
        ManyIndexes(s, b, e);
      }
    } else {
      NoIndex(s);
      assert PlainKeys([Key(s)]);
      OneIndexNone(s);
    }
  }

  lemma NoTokens()
    ensures PartTokens("") == Some([])
  {
  }

  lemma OneIndexNone(s: string)
    requires '[' !in s
    ensures OneIndex(s)
  {
  }

  lemma OnlyBracket(s: string, b: nat, e: nat)
    requires b == IndexOf(s, '[') && b + e + 1 == |s| && s[b + e] == ']' && '[' !in s[b + 1..b + e] && e >= 1
    ensures OneIndex(s)
  {
    hide IndexOf;
    forall j | b < j < |s| ensures s[j] != '[' {
      if j < b + e {
        assert s[j] == s[b + 1..b + e][j - b - 1];
      }
    }
  }

  // --- Whole paths -------------------------------------------------------------------------------

  ghost predicate HasBracketKey(tokens: seq<Token>) {
    exists i :: 0 <= i < |tokens| && tokens[i].Key? && '[' in tokens[i].key
  }

  predicate AllOneIndex(parts: seq<string>) { forall i :: 0 <= i < |parts| ==> OneIndex(parts[i]) }

  lemma PartsUnfold(parts: seq<string>)
    requires parts != [] && PartsTokens(parts).Some?
    ensures var init, last := parts[..|parts| - 1], parts[|parts| - 1];
            && last != "" && PartsTokens(init).Some? && PartTokens(last).Some?
            && PartsTokens(parts).value == PartsTokens(init).value + PartTokens(last).value
            && (SegmentTokens(last).Some? && SegmentsTokens(init).Some? ==>
                  SegmentsTokens(parts) == Some(SegmentsTokens(init).value + SegmentTokens(last).value))
  {
    hide PartTokens, SegmentTokens;
  }

  lemma {:induction false} PathReadings(parts: seq<string>)
    requires PartsTokens(parts).Some?
    ensures AllOneIndex(parts) ==> SegmentsTokens(parts) == PartsTokens(parts)
    ensures SegmentsTokens(parts).Some? && |parts| <= |SegmentsTokens(parts).value| <= |PartsTokens(parts).value|
    ensures !AllOneIndex(parts) ==> HasBracketKey(SegmentsTokens(parts).value)
    ensures !HasBracketKey(PartsTokens(parts).value)
  {
    hide PartTokens, SegmentTokens, PartsTokens, SegmentsTokens, OneIndex;
    if parts == [] {
      NoParts();
    } else {
      var init, last := parts[..|parts| - 1], parts[|parts| - 1];
      PartsUnfold(parts);
      PathReadings(init);
      SegmentReadings(last);
      var before, more := SegmentsTokens(init).value, SegmentTokens(last).value;
      AllOneIndexSplit(parts);
      BracketKeys(before, more);
      BracketKeys(PartsTokens(init).value, PartTokens(last).value);
    }
  }

  lemma NoParts()
    ensures PartsTokens([]) == Some([]) && SegmentsTokens([]) == Some([])
  {
  }

  lemma AllOneIndexSplit(parts: seq<string>)
    requires parts != []
    ensures AllOneIndex(parts) <==> AllOneIndex(parts[..|parts| - 1]) && OneIndex(parts[|parts| - 1])
  {
    hide OneIndex;
  }

  lemma BracketKeys(a: seq<Token>, b: seq<Token>)
    ensures HasBracketKey(a + b) <==> HasBracketKey(a) || HasBracketKey(b)
    ensures PlainKeys(b) <==> !HasBracketKey(b)
    ensures |b| == 1 && b[0].Key? && '[' in b[0].key ==> HasBracketKey(b)
  {
    if HasBracketKey(b) {
      var i :| 0 <= i < |b| && b[i].Key? && '[' in b[i].key;
      assert (a + b)[|a| + i] == b[i];
    }
    if HasBracketKey(a) {
      var i :| 0 <= i < |a| && a[i].Key? && '[' in a[i].key;
      assert (a + b)[i] == a[i];
    }
  }

  // --- A space behind the dollar -------------------------------------------------------------------

  predicate SpaceBehindDollar(path: string) {
    var p := TrimSpace(path);
    |p| > 1 && p[0] == '$' && p[1] in SPACES
  }

  // The path behind the dollar, and what the digest trims it to.
  lemma NormalForms(path: string) returns (q: string, r: string)
    ensures q == TrimPrefix(TrimSpace(path), '$') && r == TrimSpace(q)
    ensures q != "" ==> q[|q| - 1] !in SPACES
    ensures SpaceBehindDollar(path) <==> q != "" && q[0] in SPACES
    ensures !SpaceBehindDollar(path) ==> r == q
    ensures r == TrimLeft(q, SPACES)
  {
    hide SPACES;
    q := TrimPrefix(TrimSpace(path), '$');
    r := TrimSpace(q);
    assert TrimSpace(path) != "" ==> TrimSpace(path)[0] !in SPACES;
    LastKept(q);
    if !SpaceBehindDollar(path) {
      NothingToTrim(q);
    }
  }

  lemma {:induction false} LastKept(q: string)
    requires q != "" ==> q[|q| - 1] !in SPACES
    ensures TrimSpace(q) == TrimLeft(q, SPACES)
    ensures q != "" ==> TrimLeft(q, SPACES) != ""
  {
    hide SPACES;
    if q != "" && q[0] in SPACES {
      LastKept(q[1..]);
    }
  }

  lemma {:induction false} TrimmedSpaces(q: string) returns (blank: string)
    ensures q == blank + TrimLeft(q, SPACES) && forall c :: c in blank ==> c in SPACES
    ensures q != "" && q[0] in SPACES ==> blank != ""
  {
    hide SPACES;
    if q != "" && q[0] in SPACES {
      var more := TrimmedSpaces(q[1..]);
      blank := [q[0]] + more;
    } else {
      blank := "";
    }
  }

  // The first step of each reading starts with the first character of the path.
  ghost predicate StartsWithKey(tokens: seq<Token>, c: char) {
    tokens != [] && tokens[0].Key? && tokens[0].key != "" && tokens[0].key[0] == c
  }

  lemma {:induction false} FirstStep(parts: seq<string>)
    requires PartsTokens(parts).Some? && parts != []
    ensures parts[0] != "" && PartsTokens(parts).value != []
    ensures parts[0][0] != '[' ==> StartsWithKey(PartsTokens(parts).value, parts[0][0])
  {
    hide PartTokens, PartsTokens;
    PartsUnfold(parts);
    NoParts();
    if |parts| == 1 {
      SegmentReadings(parts[0]);
      if parts[0][0] != '[' {
        FirstOfPart(parts[0]);
      }
    } else {
      FirstStep(parts[..|parts| - 1]);
    }
  }

  lemma FirstOfPart(s: string)
    requires s != "" && s[0] != '[' && PartTokens(s).Some?
    ensures StartsWithKey(PartTokens(s).value, s[0])
  {
    hide Atoi, IndexOf;
    if '[' in s {
      var b, e, number, rest := IndexedPieces(s);
      hide Indexed;
      assert b > 0;
    }
  }

  lemma {:induction false} FirstDigestStep(segments: seq<string>)
    requires SegmentsTokens(segments).Some? && segments != [] && segments[0] != ""
    ensures SegmentsTokens(segments).value != []
    ensures var t := SegmentsTokens(segments).value[0]; t.Key? ==> t.key != "" && t.key[0] == segments[0][0]
  {
    var init, last := segments[..|segments| - 1], segments[|segments| - 1];
    if |segments| == 1 {
      assert init == [];
      FirstOfSegment(last);
    } else {
      FirstDigestStep(init);
    }
  }

  lemma FirstOfSegment(s: string)
    requires s != "" && SegmentTokens(s).Some?
    ensures SegmentTokens(s).value != []
    ensures var t := SegmentTokens(s).value[0]; t.Key? ==> t.key != "" && t.key[0] == s[0]
  {
    hide Atoi, TrimSpace, IndexOf;
  }

  lemma SplitFirst(x: string)
    requires x != "" && x[0] != '.'
    ensures Split(x, '.')[0] != "" && Split(x, '.')[0][0] == x[0]
  {
  }

  lemma {:induction false} PartsTail(first: string, rest: seq<string>)
    requires PartsTokens([first] + rest).Some?
    ensures PartsTokens(rest).Some? && |PartsTokens(rest).value| < |PartsTokens([first] + rest).value|
  {
    hide PartTokens, PartsTokens;
    var parts := [first] + rest;
    PartsUnfold(parts);
    NoParts();
    if rest == [] {
      assert parts[..0] == [];
      SegmentReadings(first);
    } else {
      assert parts[..|parts| - 1] == [first] + rest[..|rest| - 1];
      PartsTail(first, rest[..|rest| - 1]);
      PartsFold(rest);
    }
  }

  lemma PartsFold(parts: seq<string>)
    requires parts != []
    ensures var init, last := parts[..|parts| - 1], parts[|parts| - 1];
            PartsTokens(init).Some? && last != "" && PartTokens(last).Some? ==>
              PartsTokens(parts) == Some(PartsTokens(init).value + PartTokens(last).value)
  {
    hide PartTokens;
  }

  // With a space behind the dollar the filter keeps it in a key, and the digest drops it.
  lemma SpaceTellsApart(path: string)
    requires FilterTokens(path).Some? && SpaceBehindDollar(path)
    ensures DigestTokens(path) != FilterTokens(path)
  {
    hide SPACES, PartsTokens, SegmentsTokens, Split, TrimLeft, TrimSpace;
    NotSpaces();
    var q, r := NormalForms(path);
    LastKept(q);
    var parts := Split(q, '.');
    assert FilterParts(path) == parts;
    SplitFirst(q);
    FirstStep(parts);
    if r[0] == '.' {
      var blank := TrimmedSpaces(q);
      var rest := r[1..];
      assert q == blank + ['.'] + rest;
      assert '.' !in blank;
      SplitOnce(blank, rest, '.');
      PartsTail(blank, Split(rest, '.'));
      NoParts();
      PathReadings(Split(rest, '.'));
    } else if SegmentsTokens(Split(r, '.')).Some? {
      SplitFirst(r);
      FirstDigestStep(Split(r, '.'));
    }
  }

  // --- Agreement ---------------------------------------------------------------------------------

  lemma {:induction false} FilterWalkable(parts: seq<string>)
    ensures PartsTokens(parts).Some? ==> Walkable(PartsTokens(parts).value)
  {
    hide PartTokens;
    if parts != [] {
      FilterWalkable(parts[..|parts| - 1]);
      PartWalkable(parts[|parts| - 1]);
    }
  }

  lemma {:induction false} PartWalkable(s: string)
    ensures PartTokens(s).Some? ==> Walkable(PartTokens(s).value)
    decreases |s|
  {
    hide Atoi, IndexOf, Indexed;
    if s != "" && '[' in s && PartTokens(s).Some? {
      PartUnfolds(s);
      var b, e, number, rest := IndexedPieces(s);
      assert Walkable(Steps(s[..b], Atoi(number)));
      PartWalkable(rest);
      hide PartTokens, Steps;
    }
  }

  lemma {:induction false} DigestWalkable(segments: seq<string>)
    ensures SegmentsTokens(segments).Some? ==> Walkable(SegmentsTokens(segments).value)
  {
    hide SplitIndexSuffix;
    if segments != [] {
      DigestWalkable(segments[..|segments| - 1]);
    }
  }

  ghost predicate SameValues(path: string) {
    forall root :: FindAll(root, FilterTokens(path)) == FindAll(root, DigestTokens(path))
  }

  // The evaluators find the same in every value exactly when they take the same steps.
  lemma SameValuesIffSameSteps(path: string)
    ensures SameValues(path) <==> FilterTokens(path) == DigestTokens(path)
  {
    if FilterTokens(path) != DigestTokens(path) {
      var root := StepsToldApart(path);
    }
  }

  // A value on which exactly one of them finds the leaf.
  lemma StepsToldApart(path: string) returns (root: Json)
    requires FilterTokens(path) != DigestTokens(path)
    ensures (FindAll(root, FilterTokens(path)) == Some(LEAF)) != (FindAll(root, DigestTokens(path)) == Some(LEAF))
    ensures forall steps :: Found(Find(root, steps))
  {
    hide PartsTokens, SegmentsTokens, FilterParts, DigestSegments, Find, Walkable, Found;
    FilterWalkable(FilterParts(path));
    DigestWalkable(DigestSegments(path));
    var f, d := FilterTokens(path), DigestTokens(path);
    var taken := if f.Some? then f.value else d.value;
    root := Nest(taken, LEAF);
    NestTellsStepsApart(taken, taken);
    if f.Some? && d.Some? {
      NestTellsStepsApart(taken, d.value);
    }
    forall steps ensures Found(Find(root, steps)) {
      NestHolds(taken, steps);
    }
  }

  // Nothing, null, a container or the leaf.
  ghost predicate Found(r: Option<Json>) {
    r.Some? ==> r.value == LEAF || r.value == Null || r.value.Array? || r.value.Object?
  }

  lemma {:induction false} NestHolds(tokens: seq<Token>, steps: seq<Token>)
    ensures Found(Find(Nest(tokens, LEAF), steps))
  {
    var root := Nest(tokens, LEAF);
    if steps != [] {
      var first, rest := steps[0], steps[1..];
      assert steps == [first] + rest;
      FindCat(root, [first], rest);
      FindOne(root, first);
      if tokens != [] && Step(root, first) == Some(Nest(tokens[1..], LEAF)) {
        NestHolds(tokens[1..], rest);
      } else {
        assert Step(root, first).None? || Step(root, first) == Some(Null);
        NothingInNull(rest);
      }
    }
  }

  // --- Paths one evaluator rejects -----------------------------------------------------------------

  // A segment no value can match: empty, or with a negative index.
  predicate DeadSegment(s: string) { s == "" || (SplitIndexSuffix(s).1.Some? && SplitIndexSuffix(s).1.value < 0) }

  ghost predicate HasDeadSegment(segments: seq<string>) { exists i :: 0 <= i < |segments| && DeadSegment(segments[i]) }

  lemma {:induction false} DigestRejectsIff(segments: seq<string>)
    ensures SegmentsTokens(segments).None? <==> HasDeadSegment(segments)
  {
    hide DeadSegment, SegmentTokens, HasDeadSegment;
    if segments == [] {
      NoDeadSegment();
    } else {
      var init, last := segments[..|segments| - 1], segments[|segments| - 1];
      DigestRejectsIff(init);
      EmptySegment(last);
      DeadSegmentLast(segments);
    }
  }

  lemma NoDeadSegment()
    ensures !HasDeadSegment([])
  {
  }

  lemma DeadSegmentLast(segments: seq<string>)
    requires segments != []
    ensures HasDeadSegment(segments) <==>
            HasDeadSegment(segments[..|segments| - 1]) || DeadSegment(segments[|segments| - 1])
  {
    hide DeadSegment;
    var init := segments[..|segments| - 1];
    assert segments == init + [segments[|segments| - 1]];
    if HasDeadSegment(init) {
      var i :| 0 <= i < |init| && DeadSegment(init[i]);
      assert DeadSegment(segments[i]);
    }
  }

  lemma EmptySegment(s: string)
    ensures SegmentTokens(s).None? <==> DeadSegment(s)
  {
    hide Atoi, TrimSpace;
  }

  // --- Equal answers -------------------------------------------------------------------------------

  // json.Marshal of a container.
  ghost predicate Encodes(marshal: Json -> string) {
    forall v: Json :: v.Array? || v.Object? ==> marshal(v) != "" && (marshal(v)[0] == '[' || marshal(v)[0] == '{')
  }

  ghost predicate BothNull(decoded: Option<Json>, path: string) {
    && decoded.Some? && FindAll(decoded.value, FilterTokens(path)) == Some(Null)
    && FindAll(decoded.value, DigestTokens(path)) == Some(Null)
  }

  ghost predicate SameAnswer(data: Option<string>, decoded: Option<Json>, path: string, marshal: Json -> string) {
    FilterAnswer(data, decoded, path, marshal) == DigestAnswer(decoded, path, marshal)
  }

  // A path both evaluators read alike, or both reject.
  ghost predicate ReadAlike(path: string) {
    if FilterTokens(path).Some? then AllOneIndex(FilterParts(path)) && !SpaceBehindDollar(path)
    else HasDeadSegment(DigestSegments(path))
  }

  lemma ReadAlikeIff(path: string)
    ensures ReadAlike(path) <==> FilterTokens(path) == DigestTokens(path)
  {
    hide SPACES, PartsTokens, SegmentsTokens, Split, TrimLeft, TrimSpace, AllOneIndex, HasBracketKey;
    hide HasDeadSegment, FilterParts, DigestSegments;
    DigestRejectsIff(DigestSegments(path));
    if FilterTokens(path).Some? {
      if SpaceBehindDollar(path) {
        SpaceTellsApart(path);
      } else {
        SamePartsWithoutSpace(path);
        PathReadings(FilterParts(path));
      }
    }
  }

  lemma SamePartsWithoutSpace(path: string)
    requires !SpaceBehindDollar(path)
    ensures DigestSegments(path) == FilterParts(path)
  {
    hide SPACES, Split, TrimLeft, TrimSpace;
    var q, r := NormalForms(path);
  }

  /**
   On every path but a blank one, the two answers are the same for every text, except where
   both find null, exactly when the filter accepts the path, no segment has two indexes and
   no space stands behind the dollar, or the filter rejects it and a segment of the digest
   is empty or has a negative index.
   */
  lemma AnswersAgreeIff(path: string, marshal: Json -> string)
    requires Encodes(marshal)
    ensures !BlankPath(path) ==>
              ((forall data, decoded :: BothNull(decoded, path) || SameAnswer(data, decoded, path, marshal)) <==>
                ReadAlike(path))
  {
    hide FilterTokens, DigestTokens, ReadAlike, Find, Encodes, BlankPath;
    ReadAlikeIff(path);
    if !BlankPath(path) && FilterTokens(path) != DigestTokens(path) {
      var root := StepsToldApart(path);
      OnlyTheLeafIsTrue(root, FilterTokens(path), marshal);
      OnlyTheLeafIsTrue(root, DigestTokens(path), marshal);
      assert !SameAnswer(None, Some(root), path, marshal);
    }
  }

  // The leaf's text tells it from whatever else can be found beside it.
  lemma OnlyTheLeafIsTrue(root: Json, tokens: Option<seq<Token>>, marshal: Json -> string)
    requires Encodes(marshal) && forall steps :: Found(Find(root, steps))
    ensures FindAll(root, tokens).Some? ==>
              (FilterText(FindAll(root, tokens).value, marshal) == "true" <==> FindAll(root, tokens) == Some(LEAF))
    ensures FindAll(root, tokens).Some? ==>
              (DigestText(FindAll(root, tokens).value, marshal) == "true" <==> FindAll(root, tokens) == Some(LEAF))
  {
    hide Find;
    if tokens.Some? {
      assert Found(Find(root, tokens.value));
    }
  }

  lemma PathWalkable(path: string)
    ensures FilterTokens(path).Some? ==> Walkable(FilterTokens(path).value)
  {
    FilterWalkable(FilterParts(path));
  }

  lemma {:induction false} NestEnds(tokens: seq<Token>, leaf: Json)
    requires Walkable(tokens)
    ensures Find(Nest(tokens, leaf), tokens) == Some(leaf)
  {
    if tokens != [] {
      var root := Nest(tokens, leaf);
      assert tokens == [tokens[0]] + tokens[1..];
      FindCat(root, [tokens[0]], tokens[1..]);
      FindOne(root, tokens[0]);
      NestEnds(tokens[1..], leaf);
    }
  }

  lemma BlankHasNoSteps(path: string)
    requires BlankPath(path)
    ensures DigestTokens(path) == Some([])
  {
    assert TrimSpace("") == "" && TrimPrefix("$", '$') == "";
    hide SPACES;
  }

  /** Where both find null the answers are never the same; so they are for every text exactly on paths both reject. */
  lemma NullNeverAgrees(path: string, marshal: Json -> string)
    requires Encodes(marshal) && !BlankPath(path)
    ensures forall data, decoded :: BothNull(decoded, path) ==> !SameAnswer(data, decoded, path, marshal)
    ensures (forall data, decoded :: SameAnswer(data, decoded, path, marshal)) <==>
            FilterTokens(path).None? && HasDeadSegment(DigestSegments(path))
  {
    hide FilterTokens, DigestTokens, Find, Encodes, BlankPath, HasDeadSegment;
    AnswersAgreeIff(path, marshal);
    ReadAlikeIff(path);
    if FilterTokens(path).Some? && FilterTokens(path) == DigestTokens(path) {
      var root := Nest(FilterTokens(path).value, Null);
      PathWalkable(path);
      NestEnds(FilterTokens(path).value, Null);
      assert BothNull(Some(root), path);
      assert !SameAnswer(None, Some(root), path, marshal);
    }
  }
}
