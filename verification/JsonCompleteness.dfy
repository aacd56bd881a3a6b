/**
 Every derivable text is accepted, and a rejection depends only on the text up to and
 including the dead position.  Together they make the dead position the end of the longest
 viable prefix.
 */
module JsonCompleteness {
  import opened JsonGrammar
  import opened JsonScan
  import opened JsonSoundness

  lemma SpansSplit(s: Text, p: nat, q: nat, a: Text, b: Text)
    requires Spans(s, p, q, a + b)
    ensures p + |a| + |b| == q
    ensures Spans(s, p, p + |a|, a) && Spans(s, p + |a|, q, b)
  {
    assert s[p..p + |a|] == s[p..q][..|a|];
    assert s[p + |a|..q] == s[p..q][|a|..];
  }

  lemma SpansAt(s: Text, p: nat, q: nat, t: Text, i: nat)
    requires Spans(s, p, q, t) && i < |t|
    ensures At(s, p + i) == t[i]
  {
    assert s[p..q][i] == s[p + i];
  }

  // --- Whitespace and structural characters ----------------------------------------------

  lemma SkipOver(s: Text, p: nat, q: nat, w: Ws)
    requires Spans(s, p, q, w)
    ensures SkipWs(s, p) == SkipWs(s, q)
  {
    var r := SkipWs(s, p);
    if r < q {
      SpansAt(s, p, q, w, r - p);
    }
  }

  lemma StructuralAt(s: Text, p: nat, q: nat, c: CodeUnit, t: Structural)
    requires Spans(s, p, q, StructuralText(c, t)) && !IsWs(c)
    ensures p <= SkipWs(s, p) < q && At(s, SkipWs(s, p)) == c
    ensures SkipWs(s, SkipWs(s, p) + 1) == SkipWs(s, q)
    ensures IsWs(At(s, p)) || At(s, p) == c
  {
    SpansSplit(s, p, q, t.before + [c], t.after);
    var m := p + |t.before|;
    SpansSplit(s, p, m + 1, t.before, [c]);
    SpansAt(s, m, m + 1, [c], 0);
    SkipOver(s, p, m, t.before);
    SkipOver(s, m + 1, q, t.after);
  }

  // After a number, a code unit that would have extended it.
  ghost predicate Boundary(s: Text, p: nat) {
    !IsDigit(At(s, p)) && At(s, p) != DOT && !IsExpMark(At(s, p))
  }

  // --- Tokens ----------------------------------------------------------------------------

  lemma {:induction false} StringComplete(s: Text, p: nat, q: nat, cs: seq<Char>)
    requires Spans(s, p, q, CharsText(cs))
    ensures StringEnd(s, p) == Ok(q)
    decreases |cs|
  {
    if cs == [] {
      SpansAt(s, p, q, [QUOTE], 0);
    } else {
      var t := CharText(cs[0]);
      SpansSplit(s, p, q, t, CharsText(cs[1..]));
      StringComplete(s, p + |t|, q, cs[1..]);
      SpansAt(s, p, p + |t|, t, 0);
      if !cs[0].Plain? {
        SpansAt(s, p, p + |t|, t, 1);
      }
      if cs[0].Unicode? {
        SpansAt(s, p, p + |t|, t, 2);
        SpansAt(s, p, p + |t|, t, 3);
        SpansAt(s, p, p + |t|, t, 4);
        SpansAt(s, p, p + |t|, t, 5);
      }
    }
  }

  lemma DigitsComplete(s: Text, p: nat, q: nat, d: Digits)
    requires Spans(s, p, q, d) && !IsDigit(At(s, q))
    ensures IsDigit(At(s, p)) && DigitsEnd(s, p) == q
  {
    SpansAt(s, p, q, d, 0);
    var r := DigitsEnd(s, p);
    if r < q {
      SpansAt(s, p, q, d, r - p);
    }
  }

  lemma ExpComplete(s: Text, p: nat, q: nat, e: Exp)
    requires Spans(s, p, q, ExpText(e)) && Boundary(s, q)
    ensures ExpEnd(s, p) == Ok(q)
    ensures e.Exp? ==> IsExpMark(At(s, p))
    ensures e.NoExp? ==> p == q
  {
    if e.Exp? {
      SpansSplit(s, p, q, [e.mark], e.sign + e.digits);
      SpansAt(s, p, p + 1, [e.mark], 0);
      SpansSplit(s, p + 1, q, e.sign, e.digits);
      if e.sign != [] {
        SpansAt(s, p + 1, p + 2, e.sign, 0);
      }
      DigitsComplete(s, p + 1 + |e.sign|, q, e.digits);
    }
  }

  lemma FracComplete(s: Text, p: nat, q: nat, f: Frac, e: Exp)
    requires Spans(s, p, q, FracText(f) + ExpText(e)) && Boundary(s, q)
    ensures FracEnd(s, p) == Ok(q) && !IsDigit(At(s, p))
  {
    var m := p + |FracText(f)|;
    SpansSplit(s, p, q, FracText(f), ExpText(e));
    ExpComplete(s, m, q, e);
    if f.Frac? {
      SpansSplit(s, p, m, [DOT], f.digits);
      SpansAt(s, p, p + 1, [DOT], 0);
      DigitsComplete(s, p + 1, m, f.digits);
    }
  }

  lemma NumberComplete(s: Text, p: nat, q: nat, v: Value)
    requires v.Number? && Spans(s, p, q, ValueText(v)) && Boundary(s, q)
    ensures NumberEnd(s, p) == Ok(q) && (At(s, p) == MINUS || IsDigit(At(s, p)))
  {
    var sign := if v.minus then [MINUS] else [];
    var rest := FracText(v.frac) + ExpText(v.exp);
    var k, m := p + |sign|, p + |sign| + |v.integer|;
    SpansSplit(s, p, q, sign, v.integer + rest);
    SpansSplit(s, k, q, v.integer, rest);
    FracComplete(s, m, q, v.frac, v.exp);
    DigitsComplete(s, k, m, v.integer);
    SpansAt(s, k, m, v.integer, 0);
    if v.minus {
      SpansAt(s, p, k, sign, 0);
    }
  }

  lemma LiteralComplete(s: Text, p: nat, q: nat, w: Keyword)
    requires Spans(s, p, q, w)
    ensures LiteralEnd(s, p) == Ok(q)
    ensures At(s, p) == 0x74 || At(s, p) == 0x66 || At(s, p) == 0x6E
  {
    var n := MatchLength(s, p, w);
    if n < |w| {
      SpansAt(s, p, q, w, n);
    }
    SpansAt(s, p, q, w, 0);
  }

  // --- Values ----------------------------------------------------------------------------

  // The scanner accepted, and stopped at q up to whitespace.
  ghost predicate Reaches(s: Text, o: Outcome, q: nat) {
    o.Ok? && o.pos <= q <= |s| && SkipWs(s, o.pos) == SkipWs(s, q)
  }

  // Everything after the leading whitespace decides.
  lemma ValueSameStart(s: Text, p: nat, q: nat)
    requires p <= |s| && q <= |s| && SkipWs(s, p) == SkipWs(s, q)
    ensures ValueEnd(s, p) == ValueEnd(s, q)
    ensures NameEnd(s, p) == NameEnd(s, q)
  {
    hide ElementsEnd, MembersEnd, SkipWs, StringEnd, NumberEnd, LiteralEnd;
  }

  lemma SameStart(s: Text, p: nat, q: nat)
    requires p <= |s| && q <= |s| && SkipWs(s, p) == SkipWs(s, q)
    ensures ValueEnd(s, p) == ValueEnd(s, q)
    ensures NameEnd(s, p) == NameEnd(s, q)
    ensures ElementsEnd(s, p) == ElementsEnd(s, q)
    ensures MembersEnd(s, p) == MembersEnd(s, q)
  {
    hide ValueEnd, ElementsEnd, MembersEnd, NameEnd, SkipWs;
    ValueSameStart(s, p, q);
    ElementsStep(s, p);
    ElementsStep(s, q);
    MembersStep(s, p);
    MembersStep(s, q);
  }

  // No value starts with a closing character.
  lemma NotAValue(s: Text, p: nat)
    requires p <= |s| && ValueEnd(s, p).Ok?
    ensures At(s, SkipWs(s, p)) != RBRACKET
  {
    hide ElementsEnd, MembersEnd, SkipWs;
  }

  // An opening character at p, then a list from m on that the scanner reads up to q.
  lemma OpenThenList(s: Text, p: nat, m: nat, q: nat)
    requires p < m <= |s| && SkipWs(s, p) < m && SkipWs(s, SkipWs(s, p) + 1) == SkipWs(s, m)
    requires || (At(s, SkipWs(s, p)) == LBRACKET && At(s, SkipWs(s, m)) != RBRACKET && Reaches(s, ElementsEnd(s, m), q))
             || (At(s, SkipWs(s, p)) == LBRACE && At(s, SkipWs(s, m)) != RBRACE && Reaches(s, MembersEnd(s, m), q))
    ensures Reaches(s, ValueEnd(s, p), q)
  {
    hide ElementsEnd, MembersEnd, SkipWs, StringEnd, NumberEnd, LiteralEnd;
    var b := SkipWs(s, p);
    assert b < |s|;
    if s[b] == LBRACKET {
      assert ValueEnd(s, p) == ElementsEnd(s, SkipWs(s, b + 1));
    } else {
      assert ValueEnd(s, p) == MembersEnd(s, SkipWs(s, b + 1));
    }
    SameStart(s, SkipWs(s, b + 1), m);
  }

  // A value up to e, a comma, then the rest of the list from r on.
  lemma ElementThenRest(s: Text, p: nat, e: nat, r: nat, z: nat)
    requires p <= |s| && Reaches(s, ValueEnd(s, p), e)
    requires e < r <= |s| && SkipWs(s, e) < r && At(s, SkipWs(s, e)) == COMMA
    requires SkipWs(s, SkipWs(s, e) + 1) == SkipWs(s, r) && Reaches(s, ElementsEnd(s, r), z)
    ensures Reaches(s, ElementsEnd(s, p), z)
  {
    hide ValueEnd, ElementsEnd, MembersEnd, SkipWs;
    ElementsStep(s, p);
    SameStart(s, SkipWs(s, e) + 1, r);
  }

  lemma MemberThenRest(s: Text, p: nat, k: nat, e: nat, r: nat, z: nat)
    requires p <= |s| && Reaches(s, NameEnd(s, p), k) && Reaches(s, ValueEnd(s, k), e)
    requires e < r <= |s| && SkipWs(s, e) < r && At(s, SkipWs(s, e)) == COMMA
    requires SkipWs(s, SkipWs(s, e) + 1) == SkipWs(s, r) && Reaches(s, MembersEnd(s, r), z)
    ensures Reaches(s, MembersEnd(s, p), z)
  {
    hide ValueEnd, ElementsEnd, MembersEnd, NameEnd, SkipWs;
    MembersStep(s, p);
    SameStart(s, NameEnd(s, p).pos, k);
    SameStart(s, SkipWs(s, e) + 1, r);
  }

  lemma MemberThenClose(s: Text, p: nat, k: nat, q: nat, z: nat)
    requires p <= |s| && Reaches(s, NameEnd(s, p), k) && Reaches(s, ValueEnd(s, k), q)
    requires q < z <= |s| && SkipWs(s, q) < z && At(s, SkipWs(s, q)) == RBRACE
    requires SkipWs(s, SkipWs(s, q) + 1) == SkipWs(s, z)
    ensures Reaches(s, MembersEnd(s, p), z)
  {
    hide ValueEnd, ElementsEnd, MembersEnd, NameEnd, SkipWs;
    MembersStep(s, p);
    SameStart(s, NameEnd(s, p).pos, k);
  }

  lemma TokenComplete(s: Text, p: nat, q: nat, v: Value)
    requires v.Literal? || v.Number? || v.String?
    requires Spans(s, p, q, ValueText(v)) && Boundary(s, q)
    ensures Reaches(s, ValueEnd(s, p), q)
  {
    hide ElementsEnd, MembersEnd, StringEnd, NumberEnd, LiteralEnd;
    match v {
      case Literal(w) =>
        LiteralComplete(s, p, q, w);
      case Number(_, _, _, _) =>
        NumberComplete(s, p, q, v);
      case String(cs) =>
        SpansSplit(s, p, q, [QUOTE], CharsText(cs));
        SpansAt(s, p, p + 1, [QUOTE], 0);
        StringComplete(s, p + 1, q, cs);
    }
  }

  lemma EmptyComplete(s: Text, p: nat, q: nat, v: Value)
    requires v.EmptyArray? || v.EmptyObject?
    requires Spans(s, p, q, ValueText(v))
    ensures Reaches(s, ValueEnd(s, p), q)
  {
    hide ElementsEnd, MembersEnd, SkipWs, StringEnd, NumberEnd, LiteralEnd, StructuralText;
    match v {
      case EmptyArray(o, c) =>
        var m := p + |StructuralText(LBRACKET, o)|;
        SpansSplit(s, p, q, StructuralText(LBRACKET, o), StructuralText(RBRACKET, c));
        StructuralAt(s, p, m, LBRACKET, o);
        StructuralAt(s, m, q, RBRACKET, c);
      case EmptyObject(o, c) =>
        var m := p + |StructuralText(LBRACE, o)|;
        SpansSplit(s, p, q, StructuralText(LBRACE, o), StructuralText(RBRACE, c));
        StructuralAt(s, p, m, LBRACE, o);
        StructuralAt(s, m, q, RBRACE, c);
    }
  }

  lemma {:induction false} ValueComplete(s: Text, p: nat, q: nat, v: Value)
    requires Spans(s, p, q, ValueText(v)) && Boundary(s, q)
    ensures Reaches(s, ValueEnd(s, p), q)
    decreases v, 0
  {
    hide ValueEnd, ElementsEnd, MembersEnd, SkipWs, StructuralText;
    match v {
      case Literal(_) =>
        TokenComplete(s, p, q, v);
      case Number(_, _, _, _) =>
        TokenComplete(s, p, q, v);
      case String(_) =>
        TokenComplete(s, p, q, v);
      case EmptyArray(_, _) =>
        EmptyComplete(s, p, q, v);
      case EmptyObject(_, _) =>
        EmptyComplete(s, p, q, v);
      case Array(o, es, c) =>
        var m := p + |StructuralText(LBRACKET, o)|;
        SpansSplit(s, p, q, StructuralText(LBRACKET, o), ElementsText(es) + StructuralText(RBRACKET, c));
        StructuralAt(s, p, m, LBRACKET, o);
        SpansSplit(s, m, q, ElementsText(es), StructuralText(RBRACKET, c));
        ElementsComplete(s, m, m + |ElementsText(es)|, q, es, c);
        OpenThenList(s, p, m, q);
      case Object(o, ms, c) =>
        var m := p + |StructuralText(LBRACE, o)|;
        SpansSplit(s, p, q, StructuralText(LBRACE, o), MembersText(ms) + StructuralText(RBRACE, c));
        StructuralAt(s, p, m, LBRACE, o);
        SpansSplit(s, m, q, MembersText(ms), StructuralText(RBRACE, c));
        MembersComplete(s, m, m + |MembersText(ms)|, q, ms, c);
        OpenThenList(s, p, m, q);
    }
  }

  lemma {:induction false} ElementsComplete(s: Text, p: nat, q: nat, z: nat, es: Elements, close: Structural)
    requires Spans(s, p, q, ElementsText(es)) && Spans(s, q, z, StructuralText(RBRACKET, close))
    ensures Reaches(s, ElementsEnd(s, p), z)
    ensures At(s, SkipWs(s, p)) != RBRACKET
    decreases es, 1
  {
    hide ValueEnd, ElementsEnd, MembersEnd, SkipWs, StructuralText;
    ElementsStep(s, p);
    match es {
      case LastElement(v) =>
        StructuralAt(s, q, z, RBRACKET, close);
        ValueComplete(s, p, q, v);
      case MoreElements(v, c, rest) =>
        var e := p + |ValueText(v)|;
        var r := e + |StructuralText(COMMA, c)|;
        SpansSplit(s, p, q, ValueText(v), StructuralText(COMMA, c) + ElementsText(rest));
        SpansSplit(s, e, q, StructuralText(COMMA, c), ElementsText(rest));
        StructuralAt(s, e, r, COMMA, c);
        ValueComplete(s, p, e, v);
        ElementsComplete(s, r, q, z, rest, close);
        ElementThenRest(s, p, e, r, z);
    }
    NotAValue(s, p);
  }

  lemma NameComplete(s: Text, p: nat, q: nat, name: seq<Char>, colon: Structural)
    requires Spans(s, p, q, StringText(name) + StructuralText(COLON, colon))
    ensures Reaches(s, NameEnd(s, p), q) && At(s, SkipWs(s, p)) == QUOTE
  {
    hide StringEnd, SkipWs, StructuralText;
    var e := p + |StringText(name)|;
    SpansSplit(s, p, q, StringText(name), StructuralText(COLON, colon));
    SpansSplit(s, p, e, [QUOTE], CharsText(name));
    SpansAt(s, p, p + 1, [QUOTE], 0);
    StringComplete(s, p + 1, e, name);
    StructuralAt(s, e, q, COLON, colon);
  }

  lemma {:induction false} MembersComplete(s: Text, p: nat, q: nat, z: nat, ms: Members, close: Structural)
    requires Spans(s, p, q, MembersText(ms)) && Spans(s, q, z, StructuralText(RBRACE, close))
    ensures Reaches(s, MembersEnd(s, p), z)
    ensures At(s, SkipWs(s, p)) != RBRACE
    decreases ms, 1
  {
    hide ValueEnd, ElementsEnd, MembersEnd, NameEnd, SkipWs, StructuralText, Reaches;
    var head := StringText(ms.name) + StructuralText(COLON, ms.colon);
    var k, e := p + |head|, p + |head| + |ValueText(ms.value)|;
    match ms {
      case LastMember(name, colon, v) =>
        SpansSplit(s, p, q, head, ValueText(v));
        NameComplete(s, p, k, name, colon);
        StructuralAt(s, q, z, RBRACE, close);
        ValueComplete(s, k, q, v);
        MemberThenClose(s, p, k, q, z);
      case MoreMembers(name, colon, v, c, rest) =>
        var r := e + |StructuralText(COMMA, c)|;
        SpansSplit(s, p, q, MemberText(name, colon, v), StructuralText(COMMA, c) + MembersText(rest));
        SpansSplit(s, p, e, head, ValueText(v));
        NameComplete(s, p, k, name, colon);
        SpansSplit(s, e, q, StructuralText(COMMA, c), MembersText(rest));
        StructuralAt(s, e, r, COMMA, c);
        ValueComplete(s, k, e, v);
        MembersComplete(s, r, q, z, rest, close);
        MemberThenRest(s, p, k, e, r, z);
    }
  }

  lemma DocumentComplete(d: Document)
    ensures DocumentEnd(DocumentText(d)).Ok?
  {
    hide ValueEnd, SkipWs, ValueText;
    var s := DocumentText(d);
    var b, e := |d.before|, |d.before| + |ValueText(d.value)|;
    assert Spans(s, 0, |s|, s);
    SpansSplit(s, 0, |s|, d.before, ValueText(d.value) + d.after);
    SpansSplit(s, b, |s|, ValueText(d.value), d.after);
    SkipOver(s, 0, b, d.before);
    SkipOver(s, e, |s|, d.after);
    if e < |s| {
      SpansAt(s, e, |s|, d.after, 0);
    }
    ValueComplete(s, b, e, d.value);
    SameStart(s, 0, b);
  }

  // --- Rejections are decided by the text up to the dead position --------------------------

  ghost predicate Agree(s: Text, s': Text, n: nat) { n <= |s| && n <= |s'| && s[..n] == s'[..n] }

  lemma AgreeAt(s: Text, s': Text, n: nat, i: nat)
    requires Agree(s, s', n) && i < n
    ensures At(s, i) == At(s', i)
  {
    assert s[..n][i] == s'[..n][i];
  }

  // The last position whose code unit the outcome depends on.
  ghost function Look(o: Outcome): nat { if o.Ok? then o.pos else o.dead }

  lemma SkipLocal(s: Text, s': Text, n: nat, p: nat)
    requires Agree(s, s', n) && p <= |s| && SkipWs(s, p) < n
    ensures p <= |s'| && SkipWs(s', p) == SkipWs(s, p)
  {
    var r, r' := SkipWs(s, p), SkipWs(s', p);
    AgreeAt(s, s', n, r);
    if r' < r {
      AgreeAt(s, s', n, r');
    }
  }

  lemma DigitsLocal(s: Text, s': Text, n: nat, p: nat)
    requires Agree(s, s', n) && p <= |s| && DigitsEnd(s, p) < n
    ensures p <= |s'| && DigitsEnd(s', p) == DigitsEnd(s, p)
  {
    var r, r' := DigitsEnd(s, p), DigitsEnd(s', p);
    AgreeAt(s, s', n, r);
    if r' < r {
      AgreeAt(s, s', n, r');
    }
  }

  lemma {:induction false} StringLocal(s: Text, s': Text, n: nat, p: nat)
    requires Agree(s, s', n) && p <= |s| && Look(StringEnd(s, p)) < n
    ensures p <= |s'| && StringEnd(s', p) == StringEnd(s, p)
    decreases |s| - p
  {
    var o := StringEnd(s, p);
    AgreeAt(s, s', n, p);
    if s[p] == BACKSLASH {
      AgreeAt(s, s', n, p + 1);
      if s[p + 1] == LOWER_U {
        var h := HexRun(s, p + 2);
        forall i | p + 2 <= i <= p + 2 + h && i < n
          ensures At(s, i) == At(s', i)
        {
          AgreeAt(s, s', n, i);
        }
        if h == 4 {
          StringLocal(s, s', n, p + 6);
        }
      } else if IsEscapeLetter(s[p + 1]) {
        StringLocal(s, s', n, p + 2);
      }
    } else if s[p] != QUOTE && SPACE <= s[p] {
      StringLocal(s, s', n, p + 1);
    }
  }

  lemma ExpLocal(s: Text, s': Text, n: nat, p: nat)
    requires Agree(s, s', n) && p <= |s| && Look(ExpEnd(s, p)) < n
    ensures p <= |s'| && ExpEnd(s', p) == ExpEnd(s, p)
  {
    AgreeAt(s, s', n, p);
    if IsExpMark(At(s, p)) {
      AgreeAt(s, s', n, p + 1);
      var q := if IsSign(At(s, p + 1)) then p + 2 else p + 1;
      AgreeAt(s, s', n, q);
      if IsDigit(At(s, q)) {
        DigitsLocal(s, s', n, q);
      }
    }
  }

  lemma FracLocal(s: Text, s': Text, n: nat, p: nat)
    requires Agree(s, s', n) && p <= |s| && Look(FracEnd(s, p)) < n
    ensures p <= |s'| && FracEnd(s', p) == FracEnd(s, p)
  {
    AgreeAt(s, s', n, p);
    if At(s, p) != DOT {
      ExpLocal(s, s', n, p);
    } else {
      AgreeAt(s, s', n, p + 1);
      if IsDigit(At(s, p + 1)) {
        DigitsLocal(s, s', n, p + 1);
        ExpLocal(s, s', n, DigitsEnd(s, p + 1));
      }
    }
  }

  lemma NumberLocal(s: Text, s': Text, n: nat, p: nat)
    requires Agree(s, s', n) && p <= |s| && Look(NumberEnd(s, p)) < n
    ensures p <= |s'| && NumberEnd(s', p) == NumberEnd(s, p)
  {
    hide FracEnd, DigitsEnd;
    AgreeAt(s, s', n, p);
    var q := if At(s, p) == MINUS then p + 1 else p;
    AgreeAt(s, s', n, q);
    if At(s, q) == ZERO {
      FracLocal(s, s', n, q + 1);
    } else if IsDigit(At(s, q)) {
      DigitsLocal(s, s', n, q);
      FracLocal(s, s', n, DigitsEnd(s, q));
    }
  }

  lemma {:induction false} MatchLocal(s: Text, s': Text, n: nat, p: nat, word: Text)
    requires Agree(s, s', n)
    requires p + MatchLength(s, p, word) < n
    ensures MatchLength(s', p, word) == MatchLength(s, p, word)
    decreases |word|
  {
    AgreeAt(s, s', n, p);
    if word != [] && At(s, p) == word[0] {
      MatchLocal(s, s', n, p + 1, word[1..]);
    }
  }

  lemma LiteralLocal(s: Text, s': Text, n: nat, p: nat)
    requires Agree(s, s', n) && p <= |s| && Look(LiteralEnd(s, p)) < n
    ensures p <= |s'| && LiteralEnd(s', p) == LiteralEnd(s, p)
  {
    var t, f, k := MatchLength(s, p, TRUE), MatchLength(s, p, FALSE), MatchLength(s, p, NULL);
    // The keywords start with different letters, so at most one of them matches at all.
    assert t == 0 || (f == 0 && k == 0);
    assert f == 0 || k == 0;
    MatchLocal(s, s', n, p, TRUE);
    MatchLocal(s, s', n, p, FALSE);
    MatchLocal(s, s', n, p, NULL);
  }

  lemma {:induction false} ValueLocal(s: Text, s': Text, n: nat, from: nat)
    requires Agree(s, s', n) && from <= |s| && Look(ValueEnd(s, from)) < n
    ensures from <= |s'| && ValueEnd(s', from) == ValueEnd(s, from)
    decreases |s| - from, 1
  {
    hide ElementsEnd, MembersEnd, SkipWs, StringEnd, NumberEnd, LiteralEnd;
    var p := SkipWs(s, from);
    SkipLocal(s, s', n, from);
    AgreeAt(s, s', n, p);
    if s[p] == LBRACE || s[p] == LBRACKET {
      var q := SkipWs(s, p + 1);
      SkipLocal(s, s', n, p + 1);
      AgreeAt(s, s', n, q);
      if s[p] == LBRACE && At(s, q) != RBRACE {
        MembersLocal(s, s', n, q);
      } else if s[p] == LBRACKET && At(s, q) != RBRACKET {
        ElementsLocal(s, s', n, q);
      }
    } else if s[p] == QUOTE {
      StringLocal(s, s', n, p + 1);
    } else if s[p] == MINUS || IsDigit(s[p]) {
      NumberLocal(s, s', n, p);
    } else {
      LiteralLocal(s, s', n, p);
    }
  }

  lemma {:induction false} ElementsLocal(s: Text, s': Text, n: nat, p: nat)
    requires Agree(s, s', n) && p <= |s| && Look(ElementsEnd(s, p)) < n
    ensures p <= |s'| && ElementsEnd(s', p) == ElementsEnd(s, p)
    decreases |s| - p, 2
  {
    hide ValueEnd, ElementsEnd, MembersEnd, SkipWs;
    ElementsStep(s, p);
    ValueLocal(s, s', n, p);
    ElementsStep(s', p);
    if ValueEnd(s, p).Ok? {
      var e := ValueEnd(s, p).pos;
      SkipLocal(s, s', n, e);
      AgreeAt(s, s', n, SkipWs(s, e));
      if At(s, SkipWs(s, e)) == COMMA {
        ElementsLocal(s, s', n, SkipWs(s, e) + 1);
      }
    }
  }

  lemma NameLocal(s: Text, s': Text, n: nat, p: nat)
    requires Agree(s, s', n) && p <= |s| && Look(NameEnd(s, p)) < n
    ensures p <= |s'| && NameEnd(s', p) == NameEnd(s, p)
  {
    hide SkipWs, StringEnd;
    var q := SkipWs(s, p);
    SkipLocal(s, s', n, p);
    AgreeAt(s, s', n, q);
    if At(s, q) == QUOTE {
      StringLocal(s, s', n, q + 1);
      if StringEnd(s, q + 1).Ok? {
        var e := StringEnd(s, q + 1).pos;
        SkipLocal(s, s', n, e);
        AgreeAt(s, s', n, SkipWs(s, e));
      }
    }
  }

  lemma {:induction false} MembersLocal(s: Text, s': Text, n: nat, p: nat)
    requires Agree(s, s', n) && p <= |s| && Look(MembersEnd(s, p)) < n
    ensures p <= |s'| && MembersEnd(s', p) == MembersEnd(s, p)
    decreases |s| - p, 2
  {
    hide ValueEnd, ElementsEnd, MembersEnd, NameEnd, SkipWs;
    MembersStep(s, p);
    NameLocal(s, s', n, p);
    MembersStep(s', p);
    if NameEnd(s, p).Ok? {
      var c := NameEnd(s, p).pos;
      ValueLocal(s, s', n, c);
      if ValueEnd(s, c).Ok? {
        var e := ValueEnd(s, c).pos;
        SkipLocal(s, s', n, e);
        AgreeAt(s, s', n, SkipWs(s, e));
        if At(s, SkipWs(s, e)) == COMMA {
          MembersLocal(s, s', n, SkipWs(s, e) + 1);
        }
      }
    }
  }

  lemma DocumentLocal(s: Text, s': Text, n: nat)
    requires Agree(s, s', n) && DocumentEnd(s).Bad? && DocumentEnd(s).dead < n
    ensures DocumentEnd(s') == DocumentEnd(s)
  {
    hide ValueEnd, SkipWs;
    ValueLocal(s, s', n, 0);
    if ValueEnd(s, 0).Ok? {
      SkipLocal(s, s', n, ValueEnd(s, 0).pos);
    }
  }

  // --- The two theorems --------------------------------------------------------------------

  /** The scanner accepts exactly the JSON texts. */
  lemma AcceptsExactlyJson(s: Text)
    ensures DocumentEnd(s).Ok? <==> IsJson(s)
  {
    hide DocumentEnd;
    if DocumentEnd(s).Ok? {
      DocumentSound(s);
    } else if IsJson(s) {
      var d: Document :| DocumentText(d) == s;
      DocumentComplete(d);
    }
  }

  /** The dead position ends the longest prefix that some continuation completes to JSON. */
  lemma DeadEndsLongestViablePrefix(s: Text)
    requires DocumentEnd(s).Bad?
    ensures Viable(s[..DocumentEnd(s).dead])
    ensures forall n :: DocumentEnd(s).dead < n <= |s| ==> !Viable(s[..n])
  {
    hide DocumentEnd;
    DocumentViable(s);
    forall n | DocumentEnd(s).dead < n <= |s|
      ensures !Viable(s[..n])
    {
      if Viable(s[..n]) {
        var d: Document :| s[..n] <= DocumentText(d);
        var s' := DocumentText(d);
        assert s'[..n] == s[..n];
        DocumentLocal(s, s', n);
        DocumentComplete(d);
        assert false;
      }
    }
  }
}
