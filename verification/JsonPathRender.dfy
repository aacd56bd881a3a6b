/** Printing the steps of a JSON path, and which step lists the parser can produce. */
module JsonPathRender {
  import opened Basics
  import opened JsonPath
  import opened JsonPathAgreement

  // --- Printing steps ------------------------------------------------------------------------------

  // An index in brackets, and what follows it.
  function Bracketed(d: string, rest: string): string { "[" + (d + ("]" + rest)) }

  function RenderStep(t: Token): string
    requires t.Index? ==> 0 <= t.index
  {
    match t case Key(k) => "." + k case Index(i) => Bracketed(Decimal(i), "")
  }

  function RenderSteps(tokens: seq<Token>): string
    requires Walkable(tokens)
  {
    if tokens == [] then "" else RenderSteps(tokens[..|tokens| - 1]) + RenderStep(tokens[|tokens| - 1])
  }

  function Render(tokens: seq<Token>): string
    requires Walkable(tokens)
  {
    "$" + RenderSteps(tokens)
  }

  // What a step can be.
  predicate GoodStep(t: Token) {
    match t case Key(k) => k != "" && '.' !in k && '[' !in k case Index(i) => 0 <= i <= MAX_INT
  }

  predicate EndsWell(tokens: seq<Token>) {
    tokens != [] && tokens[|tokens| - 1].Key? ==>
      var k := tokens[|tokens| - 1].key; k == "" || k[|k| - 1] !in SPACES
  }

  ghost predicate GoodSteps(tokens: seq<Token>) { forall i :: 0 <= i < |tokens| ==> GoodStep(tokens[i]) }

  ghost predicate Renderable(tokens: seq<Token>) { GoodSteps(tokens) && EndsWell(tokens) }

  // A key starts a segment, an index goes with the one before.
  function AddStep(before: seq<string>, t: Token): (r: seq<string>)
    requires t.Index? ==> 0 <= t.index
    ensures r != []
  {
    if t.Key? then before + [t.key]
    else if before == [] then [RenderStep(t)]
    else before[..|before| - 1] + [before[|before| - 1] + RenderStep(t)]
  }

  // The segments the printed steps form.
  function Segments(tokens: seq<Token>): (r: seq<string>)
    requires GoodSteps(tokens)
    ensures r == [] <==> tokens == []
  {
    if tokens == [] then [] else AddStep(Segments(tokens[..|tokens| - 1]), tokens[|tokens| - 1])
  }

  lemma {:induction false} IndexOfCat(a: string, b: string)
    requires b != "" && b[0] !in a
    ensures IndexOf(a + b, b[0]) == |a| && (a + b)[|a|] == b[0]
  {
    if a == "" {
      assert a + b == b;
    } else {
      assert a[0] in a && (a + b)[1..] == a[1..] + b;
      IndexOfCat(a[1..], b);
    }
  }

  // The pieces of a printed segment.
  lemma PrintedPieces(name: string, d: string, rest: string)
    requires '[' !in name && ']' !in d
    ensures var s, e := name + Bracketed(d, rest), 1 + |d|;
            && '[' in s && IndexOf(s, '[') == |name| && IndexOf(s[|name|..], ']') == e
            && s[..|name|] == name && s[|name|..] == Bracketed(d, rest)
  {
    var close := "]" + rest;
    var tail := Bracketed(d, rest);
    var s := name + tail;
    IndexOfCat(name, tail);
    assert s[|name|] == '[';
    CatSlices(name, tail);
    CatAssociates("[", d, close);
    IndexOfCat("[" + d, close);
    hide IndexOf, Bracketed;
  }

  lemma BracketedSlices(d: string, rest: string)
    ensures var t := Bracketed(d, rest); |t| == |d| + 2 + |rest| && t[1..1 + |d|] == d && t[|d| + 2..] == rest
  {
    var close := "]" + rest;
    CatSlices("[", d + close);
    CatSlices(d, close);
    CatSlices("]", rest);
    var t := Bracketed(d, rest);
    assert t[1..1 + |d|] == (d + close)[..|d|];
    assert t[|d| + 2..] == (d + close)[|d| + 1..] == close[1..];
  }

  // The first index of a segment, read.
  lemma IndexedReads(name: string, i: nat, rest: string)
    requires '[' !in name && i <= MAX_INT && (rest != "" ==> rest[0] == '[')
    ensures var s := name + Bracketed(Decimal(i), rest);
            '[' in s && Indexed(s) == Some((Steps(name, Some(i)), rest))
  {
    hide Atoi, IndexOf, Steps, Decimal, Bracketed, Indexed;
    DecimalReadsBack(i);
    NumbersHaveNoBrackets(Decimal(i));
    PrintedPieces(name, Decimal(i), rest);
    BracketedSlices(Decimal(i), rest);
    var d: string := Decimal(i);
    var s := name + Bracketed(d, rest);
    assert s[|name| + 1..|name| + 1 + |d|] == s[|name|..][1..1 + |d|];
    assert s[|name| + 1 + |d| + 1..] == s[|name|..][|d| + 2..];
    IndexedFrom(s, |name|, 1 + |d|, d, rest);
  }

  lemma IndexedFrom(s: string, b: nat, e: nat, number: string, rest: string)
    requires '[' in s && IndexOf(s, '[') == b && IndexOf(s[b..], ']') == e && e >= 2
    requires number == s[b + 1..b + e] && rest == s[b + e + 1..]
    requires Atoi(number).Some? && 0 <= Atoi(number).value && (rest != "" ==> rest[0] == '[')
    ensures Indexed(s) == Some((Steps(s[..b], Atoi(number)), rest))
  {
    hide Atoi, IndexOf, Steps;
  }

  // --- Printed steps parse -------------------------------------------------------------------------

  lemma {:induction false} IndexOfPrefix(a: string, b: string, c: char)
    requires c in a
    ensures IndexOf(a + b, c) == IndexOf(a, c) && c in a + b
  {
    if a[0] != c {
      assert (a + b)[1..] == a[1..] + b;
      IndexOfPrefix(a[1..], b, c);
    }
  }

  lemma IndexedExtends(s: string, t: string)
    requires '[' in s && Indexed(s).Some? && t != "" && t[0] == '['
    ensures '[' in s + t && Indexed(s + t) == Some((Indexed(s).value.0, Indexed(s).value.1 + t))
  {
    hide IndexOf, Atoi, Steps;
    var b, e, number, rest := IndexedPieces(s);
    hide Indexed;
    assert s[b..][e] == ']';
    ExtendedBrackets(s, t, b, e);
    ExtendedSlices(s, t, b, e);
    IndexedFrom(s + t, b, e, number, rest + t);
  }

  lemma ExtendedSlices(s: string, t: string, b: nat, e: nat)
    requires b + e < |s| && 0 < e && t != "" && t[0] == '[' && (s[b + e + 1..] != "" ==> s[b + e + 1..][0] == '[')
    ensures (s + t)[..b] == s[..b] && (s + t)[b + 1..b + e] == s[b + 1..b + e]
    ensures (s + t)[b + e + 1..] == s[b + e + 1..] + t
    ensures (s[b + e + 1..] + t)[0] == '['
  {
  }

  lemma ExtendedBrackets(s: string, t: string, b: nat, e: nat)
    requires '[' in s && b == IndexOf(s, '[') && ']' in s[b..] && e == IndexOf(s[b..], ']')
    ensures '[' in s + t && IndexOf(s + t, '[') == b && IndexOf((s + t)[b..], ']') == e
  {
    hide IndexOf;
    IndexOfPrefix(s, t, '[');
    IndexOfPrefix(s[b..], t, ']');
    assert (s + t)[b..] == s[b..] + t;
  }

  lemma PartFolds(s: string)
    requires '[' in s && Indexed(s).Some? && PartTokens(Indexed(s).value.1).Some?
    ensures PartTokens(s) == Some(Indexed(s).value.0 + PartTokens(Indexed(s).value.1).value)
  {
    hide Indexed;
  }

  // An index put behind an accepted segment is one more step.
  lemma {:induction false} PartAppend(s: string, i: nat)
    requires PartTokens(s).Some? && i <= MAX_INT
    ensures PartTokens(s + Bracketed(Decimal(i), "")) == Some(PartTokens(s).value + [Index(i)])
    decreases |s|
  {
    hide Indexed, PartTokens, Bracketed, Decimal;
    var t := Bracketed(Decimal(i), "");
    NoTokens();
    if '[' !in s {
      IndexedReads(s, i, "");
      PartFolds(s + t);
      if s != "" {
        NoIndex(s);
      }
      assert Steps(s, Some(i)) + [] == Steps(s, Some(i));
    } else {
      PartUnfolds(s);
      BracketedStarts(Decimal(i));
      IndexedExtends(s, t);
      PartAppend(Indexed(s).value.1, i);
      PartFolds(s + t);
      CatAssociates(Indexed(s).value.0, PartTokens(Indexed(s).value.1).value, [Index(i)]);
    }
  }

  lemma BracketedStarts(d: string)
    ensures Bracketed(d, "") != "" && Bracketed(d, "")[0] == '[' && Bracketed(d, "")[|Bracketed(d, "")| - 1] == ']'
  {
  }

  lemma AddStepParses(before: seq<string>, tokens: seq<Token>, t: Token)
    requires PartsTokens(before) == Some(tokens) && GoodStep(t)
    ensures PartsTokens(AddStep(before, t)) == Some(tokens + [t])
  {
    hide PartTokens, PartsTokens, Bracketed, Decimal;
    NoParts();
    NoTokens();
    var parts := AddStep(before, t);
    PartsFold(parts);
    if t.Key? {
      NoIndex(t.key);
      assert parts[..|parts| - 1] == before;
    } else {
      BracketedStarts(Decimal(t.index));
      if before == [] {
        PartAppend("", t.index);
        assert "" + RenderStep(t) == RenderStep(t) && parts[..0] == [];
        assert [] + ([] + [Index(t.index)]) == tokens + [t];
      } else {
        PartsUnfold(before);
        var last := before[|before| - 1];
        PartAppend(last, t.index);
        assert parts[..|parts| - 1] == before[..|before| - 1];
        CatAssociates(PartsTokens(before[..|before| - 1]).value, PartTokens(last).value, [t]);
      }
    }
  }

  lemma {:induction false} SegmentsParse(tokens: seq<Token>)
    requires GoodSteps(tokens)
    ensures PartsTokens(Segments(tokens)) == Some(tokens)
  {
    hide PartsTokens, AddStep, GoodStep;
    NoParts();
    if tokens != [] {
      var init, last := tokens[..|tokens| - 1], tokens[|tokens| - 1];
      SegmentsParse(init);
      assert GoodStep(last);
      GoodIndex(last);
      AddStepParses(Segments(init), init, last);
      assert tokens == init + [last];
    }
  }

  lemma GoodIndex(t: Token)
    ensures GoodStep(t) ==> (t.Index? ==> 0 <= t.index)
  {
  }

  lemma {:induction false} JoinLast(parts: seq<string>, x: string)
    requires parts != []
    ensures Join(parts + [x], '.') == Join(parts, '.') + ("." + x)
    ensures Join(parts[..|parts| - 1] + [parts[|parts| - 1] + x], '.') == Join(parts, '.') + x
  {
    if |parts| == 1 {
      assert parts + [x] == [parts[0], x] && [parts[0], x][1..] == [x];
      assert parts[..0] + [parts[0] + x] == [parts[0] + x];
    } else {
      var rest := parts[1..];
      JoinLast(rest, x);
      assert (parts + [x])[1..] == rest + [x];
      var extended := parts[..|parts| - 1] + [parts[|parts| - 1] + x];
      assert extended[1..] == rest[..|rest| - 1] + [rest[|rest| - 1] + x];
    }
  }

  ghost predicate CleanSegments(parts: seq<string>) {
    forall i :: 0 <= i < |parts| ==> parts[i] != "" && '.' !in parts[i]
  }

  lemma AddStepClean(before: seq<string>, t: Token)
    requires CleanSegments(before) && GoodStep(t)
    ensures CleanSegments(AddStep(before, t))
  {
    StepText(t);
    hide RenderStep;
  }

  lemma AddStepJoins(before: seq<string>, t: Token)
    requires GoodStep(t)
    ensures Join(AddStep(before, t), '.') == if before == [] && t.Key? then t.key else Join(before, '.') + RenderStep(t)
  {
    hide Bracketed, Decimal, Join;
    if before == [] {
      NothingJoined(if t.Key? then t.key else RenderStep(t));
      assert [] + [if t.Key? then t.key else RenderStep(t)] == [if t.Key? then t.key else RenderStep(t)];
      assert "" + RenderStep(t) == RenderStep(t);
    } else {
      JoinLast(before, if t.Key? then t.key else RenderStep(t));
    }
  }

  lemma NothingJoined(x: string)
    ensures Join([], '.') == "" && Join([x], '.') == x
  {
  }

  // The printed steps are the segments joined, behind a dot if a key comes first.
  lemma {:induction false} StepsJoin(tokens: seq<Token>)
    requires GoodSteps(tokens)
    ensures RenderSteps(tokens) == (if tokens != [] && tokens[0].Key? then "." else "") + Join(Segments(tokens), '.')
    ensures CleanSegments(Segments(tokens))
  {
    hide Join, AddStep, GoodStep, CleanSegments;
    if tokens == [] {
      NothingJoined("");
      assert CleanSegments([]) by { NoSegments(); }
    } else {
      var init, last := tokens[..|tokens| - 1], tokens[|tokens| - 1];
      StepsJoin(init);
      assert GoodStep(last);
      GoodIndex(last);
      AddStepJoins(Segments(init), last);
      AddStepClean(Segments(init), last);
      var dot := if tokens[0].Key? then "." else "";
      if init == [] {
        NothingJoined("");
        assert RenderSteps(init) == "" && "" + RenderStep(last) == RenderStep(last);
      } else {
        CatAssociates(dot, Join(Segments(init), '.'), RenderStep(last));
      }
    }
  }

  lemma NoSegments()
    ensures CleanSegments([])
  {
  }

  lemma StepText(t: Token)
    requires GoodStep(t)
    ensures RenderStep(t) != "" && (t.Index? ==> '.' !in RenderStep(t))
  {
    if t.Index? {
      var d := Decimal(t.index);
      assert '.' !in d;
      hide Decimal;
    }
  }

  lemma {:induction false} StepsEnd(tokens: seq<Token>)
    requires Renderable(tokens)
    ensures RenderSteps(tokens) != "" ==> RenderSteps(tokens)[|RenderSteps(tokens)| - 1] !in SPACES
  {
    if tokens != [] {
      var last := tokens[|tokens| - 1];
      assert GoodStep(last);
      NotSpaces();
      if last.Index? {
        BracketedStarts(Decimal(last.index));
      }
      hide SPACES, Bracketed;
    }
  }

  lemma {:induction false} JoinStarts(parts: seq<string>)
    requires parts != [] && parts[0] != ""
    ensures Join(parts, '.') != "" && Join(parts, '.')[0] == parts[0][0]
  {
  }

  lemma {:induction false} SegmentsStart(tokens: seq<Token>)
    requires GoodSteps(tokens) && tokens != []
    ensures Segments(tokens)[0] != "" && (tokens[0].Index? ==> Segments(tokens)[0][0] == '[')
  {
    hide Bracketed, Decimal;
    var init, last := tokens[..|tokens| - 1], tokens[|tokens| - 1];
    assert GoodStep(last);
    if last.Index? {
      BracketedStarts(Decimal(last.index));
    }
    if init != [] {
      SegmentsStart(init);
    }
  }

  lemma RenderableWalks(tokens: seq<Token>)
    requires GoodSteps(tokens)
    ensures Walkable(tokens)
  {
  }

  lemma PrintedTrims(tokens: seq<Token>)
    requires Renderable(tokens) && Walkable(tokens)
    ensures TrimPrefix(TrimSpace(Render(tokens)), '$') == RenderSteps(tokens)
  {
    NotSpaces();
    StepsEnd(tokens);
    hide SPACES, TrimSpace, GoodStep, RenderSteps;
    NothingToTrim(Render(tokens));
    CatSlices("$", RenderSteps(tokens));
  }

  lemma PrintedJoins(tokens: seq<Token>)
    requires GoodSteps(tokens) && Walkable(tokens) && tokens != []
    ensures TrimPrefix(RenderSteps(tokens), '.') == Join(Segments(tokens), '.') != ""
  {
    hide Join, AddStep, GoodStep, RenderSteps, Segments;
    StepsJoin(tokens);
    SegmentsStart(tokens);
    JoinStarts(Segments(tokens));
    var joined := Join(Segments(tokens), '.');
    CatSlices(".", joined);
    assert "" + joined == joined;
  }

  // Splitting what is printed gives its segments.
  lemma PrintedParts(tokens: seq<Token>)
    requires Renderable(tokens) && Walkable(tokens)
    ensures FilterParts(Render(tokens)) == Segments(tokens)
  {
    hide Join, Split, AddStep, TrimSpace, GoodStep, Render;
    PrintedTrims(tokens);
    if tokens != [] {
      PrintedJoins(tokens);
      StepsJoin(tokens);
      SplitJoin(Segments(tokens), '.');
    }
  }

  // --- What parsing produces -----------------------------------------------------------------------

  lemma {:induction false} PartSteps(s: string)
    requires s != "" && '.' !in s && PartTokens(s).Some?
    ensures PartTokens(s).value != [] && GoodSteps(PartTokens(s).value)
    ensures var last := PartTokens(s).value[|PartTokens(s).value| - 1]; if '[' in s then last.Index? else last == Key(s)
    decreases |s|
  {
    hide PartTokens, Indexed, Atoi, IndexOf;
    if '[' in s {
      PartUnfolds(s);
      var b, e, number, rest := IndexedPieces(s);
      assert '[' !in s[..b] && '.' !in s[..b];
      assert GoodSteps(Steps(s[..b], Atoi(number)));
      if rest == "" {
        NoTokens();
      } else {
        assert rest[0] in rest;
        PartSteps(rest);
      }
    } else {
      NoIndex(s);
    }
  }

  lemma {:induction false} PartsSteps(parts: seq<string>)
    requires Without(parts, '.') && PartsTokens(parts).Some?
    ensures var ts := PartsTokens(parts).value;
            GoodSteps(ts) && (ts != [] && ts[|ts| - 1].Key? ==> parts != [] && ts[|ts| - 1].key == parts[|parts| - 1])
  {
    hide PartTokens, PartsTokens, GoodStep;
    NoParts();
    if parts != [] {
      PartsUnfold(parts);
      PartsSteps(parts[..|parts| - 1]);
      PartSteps(parts[|parts| - 1]);
    }
  }

  lemma {:induction false} SplitEnd(x: string)
    ensures var last := Split(x, '.')[|Split(x, '.')| - 1]; last != "" ==> x != "" && last[|last| - 1] == x[|x| - 1]
  {
    if x != "" {
      SplitEnd(x[1..]);
    }
  }

  /** Whatever the path, the steps parsed from it can be printed. */
  lemma ParsedIsRenderable(path: string)
    requires FilterTokens(path).Some?
    ensures Renderable(FilterTokens(path).value)
  {
    hide SPACES, Split, PartsTokens, GoodStep, TrimSpace;
    var q, r := NormalForms(path);
    var normalized := TrimPrefix(q, '.');
    var parts := FilterParts(path);
    SplitClean(normalized, '.');
    SplitEnd(normalized);
    PartsSteps(parts);
    NoParts();
  }

  /** Printed steps parse to themselves exactly when they can be printed. */
  lemma RenderParsesIff(tokens: seq<Token>)
    requires Walkable(tokens)
    ensures FilterTokens(Render(tokens)) == Some(tokens) <==> Renderable(tokens)
  {
    hide FilterParts, PartsTokens, Segments, GoodStep, EndsWell;
    if Renderable(tokens) {
      RenderableWalks(tokens);
      PrintedParts(tokens);
      SegmentsParse(tokens);
    } else if FilterTokens(Render(tokens)) == Some(tokens) {
      ParsedIsRenderable(Render(tokens));
    }
  }

  /** So parsing, printing and parsing again changes nothing. */
  lemma ParseRenderParse(path: string)
    requires FilterTokens(path).Some?
    ensures Walkable(FilterTokens(path).value) && FilterTokens(Render(FilterTokens(path).value)) == FilterTokens(path)
  {
    hide FilterParts, PartsTokens, Renderable;
    FilterWalkable(FilterParts(path));
    ParsedIsRenderable(path);
    RenderParsesIff(FilterTokens(path).value);
  }
}
