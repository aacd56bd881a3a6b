/**
 What the scanner accepts is derived by the grammar, and the text before a dead position is
 a prefix of some derivable text.  Both are shown by building the derivation tree.
 */
module JsonSoundness {
  import opened JsonGrammar
  import opened JsonScan

  const SOME_VALUE: Value := Literal(NULL)
  const NO_SPACE: Structural := Structural([], [])

  // s[p..q] is exactly t.
  ghost predicate Spans(s: Text, p: nat, q: nat, t: Text) { p <= q <= |s| && s[p..q] == t }

  // s[p..q] is a prefix of t.
  ghost predicate Starts(s: Text, p: nat, q: nat, t: Text) { p <= q <= |s| && s[p..q] <= t }

  lemma SpansCat(s: Text, p: nat, m: nat, q: nat, a: Text, b: Text)
    requires Spans(s, p, m, a) && Spans(s, m, q, b)
    ensures Spans(s, p, q, a + b)
  {
    assert s[p..q] == s[p..m] + s[m..q];
  }

  lemma StartsCat(s: Text, p: nat, m: nat, q: nat, a: Text, b: Text)
    requires Spans(s, p, m, a) && Starts(s, m, q, b)
    ensures Starts(s, p, q, a + b)
  {
    assert s[p..q] == s[p..m] + s[m..q];
  }

  lemma StartsMore(s: Text, p: nat, q: nat, a: Text, b: Text)
    requires Starts(s, p, q, a)
    ensures Starts(s, p, q, a + b)
  {
  }

  // The whitespace skipped at p.
  ghost function Skipped(s: Text, p: nat): (w: Ws)
    requires p <= |s|
    ensures Spans(s, p, SkipWs(s, p), w)
  {
    s[p..SkipWs(s, p)]
  }

  // One structural character c at position m, preceded by w and followed by nothing yet.
  lemma SpansUnit(s: Text, p: nat, c: CodeUnit)
    requires At(s, p) == c
    ensures Spans(s, p, p + 1, [c])
  {
  }

  lemma SpansStructural(s: Text, p: nat, m: nat, q: nat, c: CodeUnit, w: Ws, w': Ws)
    requires Spans(s, p, m, w) && At(s, m) == c && Spans(s, m + 1, q, w')
    ensures Spans(s, p, q, StructuralText(c, Structural(w, w')))
  {
    SpansUnit(s, m, c);
    SpansCat(s, p, m, m + 1, w, [c]);
    SpansCat(s, p, m + 1, q, w + [c], w');
  }

  lemma Assoc(a: Text, b: Text, c: Text)
    ensures a + (b + c) == a + b + c
  {
  }

  // A list item, its separator, and the rest of the list followed by the closing character.
  lemma SpansCons(s: Text, b: nat, e: nat, r: nat, end: nat, head: Text, sep: Text, rest: Text, tail: Text)
    requires Spans(s, b, e, head) && Spans(s, e, r, sep) && Spans(s, r, end, rest + tail)
    ensures Spans(s, b, end, head + (sep + rest) + tail)
  {
    SpansCat(s, e, r, end, sep, rest + tail);
    SpansCat(s, b, e, end, head, sep + (rest + tail));
    assert head + (sep + (rest + tail)) == head + (sep + rest) + tail;
  }

  lemma StartsCons(s: Text, b: nat, e: nat, r: nat, end: nat, head: Text, sep: Text, rest: Text)
    requires Spans(s, b, e, head) && Spans(s, e, r, sep) && Starts(s, r, end, rest)
    ensures Starts(s, b, end, head + (sep + rest))
  {
    StartsCat(s, e, r, end, sep, rest);
    StartsCat(s, b, e, end, head, sep + rest);
  }

  // A list item followed by whitespace only: any separator and rest may still follow.
  lemma StartsStuck(s: Text, b: nat, e: nat, q: nat, head: Text, c: CodeUnit, w: Ws, rest: Text)
    requires Spans(s, b, e, head) && Spans(s, e, q, w)
    ensures Starts(s, b, q, head + (StructuralText(c, Structural(w, [])) + rest))
  {
    StartsMore(s, e, q, w, [c] + [] + rest);
    assert w + ([c] + [] + rest) == StructuralText(c, Structural(w, [])) + rest;
    StartsCat(s, b, e, q, head, StructuralText(c, Structural(w, [])) + rest);
  }

  // --- Strings ---------------------------------------------------------------------------

  // The character the scanner steps over at p, when it does.
  ghost function CharAt(s: Text, p: nat): (c: Char)
    requires p < |s| && StringEnd(s, p).Ok? && s[p] != QUOTE
    ensures p + |CharText(c)| <= |s| && Spans(s, p, p + |CharText(c)|, CharText(c))
    ensures StringEnd(s, p) == StringEnd(s, p + |CharText(c)|)
  {
    if s[p] != BACKSLASH then Plain(s[p])
    else if s[p + 1] != LOWER_U then Escape(s[p + 1])
    else Unicode(s[p + 2], s[p + 3], s[p + 4], s[p + 5])
  }

  lemma {:induction false} StringSound(s: Text, p: nat) returns (cs: seq<Char>)
    requires p <= |s| && StringEnd(s, p).Ok?
    ensures Spans(s, p, StringEnd(s, p).pos, CharsText(cs))
    decreases |s| - p
  {
    if s[p] == QUOTE {
      cs := [];
    } else {
      var c := CharAt(s, p);
      var rest := StringSound(s, p + |CharText(c)|);
      cs := [c] + rest;
      SpansCat(s, p, p + |CharText(c)|, StringEnd(s, p).pos, CharText(c), CharsText(rest));
    }
  }

  ghost function HexOrZero(s: Text, p: nat): HexDigit { if p < |s| && IsHex(s[p]) then s[p] else ZERO }

  // A character whose text starts with s[p..dead], at a position where the scanner gives up.
  lemma BadChar(s: Text, p: nat) returns (cs: seq<Char>)
    requires p <= |s| && StringEnd(s, p).Bad? && StringEnd(s, p).pos == p
    ensures Starts(s, p, StringEnd(s, p).dead, CharsText(cs))
  {
    var d := StringEnd(s, p).dead;
    if d == p {
      cs := [];
    } else if At(s, p + 1) == LOWER_U {
      cs := [Unicode(HexOrZero(s, p + 2), HexOrZero(s, p + 3), HexOrZero(s, p + 4), ZERO)];
      assert forall i :: 0 <= i < d - p ==> s[p..d][i] == CharText(cs[0])[i];
      StartsMore(s, p, d, CharText(cs[0]), CharsText([]));
    } else {
      cs := [Escape(QUOTE)];
      assert s[p..d] == [BACKSLASH] <= CharText(cs[0]);
      StartsMore(s, p, d, CharText(cs[0]), CharsText([]));
    }
  }

  lemma {:induction false} StringViable(s: Text, p: nat) returns (cs: seq<Char>)
    requires p <= |s| && StringEnd(s, p).Bad?
    ensures Starts(s, p, StringEnd(s, p).dead, CharsText(cs))
    decreases |s| - p
  {
    if StringEnd(s, p).pos == p {
      cs := BadChar(s, p);
    } else {
      var c :=
        if s[p] != BACKSLASH then Plain(s[p])
        else if s[p + 1] != LOWER_U then Escape(s[p + 1])
        else Unicode(s[p + 2], s[p + 3], s[p + 4], s[p + 5]);
      var m := p + |CharText(c)|;
      assert Spans(s, p, m, CharText(c));
      var rest := StringViable(s, m);
      cs := [c] + rest;
      StartsCat(s, p, m, StringEnd(s, p).dead, CharText(c), CharsText(rest));
    }
  }

  // --- Numbers ---------------------------------------------------------------------------

  ghost function DigitsAt(s: Text, p: nat): (d: Digits)
    requires p <= |s| && IsDigit(At(s, p))
    ensures Spans(s, p, DigitsEnd(s, p), d)
  {
    s[p..DigitsEnd(s, p)]
  }

  lemma ExpSound(s: Text, p: nat) returns (e: Exp)
    requires p <= |s|
    ensures ExpEnd(s, p).Ok? ==> Spans(s, p, ExpEnd(s, p).pos, ExpText(e))
    ensures ExpEnd(s, p).Bad? ==> Starts(s, p, ExpEnd(s, p).dead, ExpText(e))
  {
    if !IsExpMark(At(s, p)) {
      e := NoExp;
    } else {
      var q := if IsSign(At(s, p + 1)) then p + 2 else p + 1;
      var sign: OptSign := s[p + 1..q];
      if IsDigit(At(s, q)) {
        e := Exp(s[p], sign, DigitsAt(s, q));
        SpansCat(s, p + 1, q, DigitsEnd(s, q), sign, e.digits);
        SpansCat(s, p, p + 1, DigitsEnd(s, q), [s[p]], sign + e.digits);
      } else {
        e := Exp(s[p], sign, [ZERO]);
        SpansCat(s, p, p + 1, q, [s[p]], sign);
        StartsMore(s, p, q, [s[p]] + sign, e.digits);
        assert [s[p]] + sign + e.digits == ExpText(e);
      }
    }
  }

  lemma FracSound(s: Text, p: nat) returns (f: Frac, e: Exp)
    requires p <= |s|
    ensures FracEnd(s, p).Ok? ==> Spans(s, p, FracEnd(s, p).pos, FracText(f) + ExpText(e))
    ensures FracEnd(s, p).Bad? ==> Starts(s, p, FracEnd(s, p).dead, FracText(f) + ExpText(e))
  {
    if At(s, p) != DOT {
      f := NoFrac;
      e := ExpSound(s, p);
      assert FracText(f) + ExpText(e) == ExpText(e);
    } else if IsDigit(At(s, p + 1)) {
      var m := DigitsEnd(s, p + 1);
      f := Frac(DigitsAt(s, p + 1));
      e := ExpSound(s, m);
      SpansUnit(s, p, DOT);
      SpansCat(s, p, p + 1, m, [DOT], f.digits);
      if ExpEnd(s, m).Ok? {
        SpansCat(s, p, m, ExpEnd(s, m).pos, FracText(f), ExpText(e));
      } else {
        StartsCat(s, p, m, ExpEnd(s, m).dead, FracText(f), ExpText(e));
      }
    } else {
      f, e := Frac([ZERO]), NoExp;
    }
  }

  lemma NumberParts(s: Text, p: nat, q: nat, m: nat, o: Outcome, sign: Text, whole: Text, rest: Text)
    requires Spans(s, p, q, sign) && Spans(s, q, m, whole)
    requires o.Ok? ==> Spans(s, m, o.pos, rest)
    requires o.Bad? ==> Starts(s, m, o.dead, rest)
    ensures o.Ok? ==> Spans(s, p, o.pos, sign + (whole + rest))
    ensures o.Bad? ==> Starts(s, p, o.dead, sign + (whole + rest))
  {
    if o.Ok? {
      SpansCat(s, q, m, o.pos, whole, rest);
      SpansCat(s, p, q, o.pos, sign, whole + rest);
    } else {
      StartsCat(s, q, m, o.dead, whole, rest);
      StartsCat(s, p, q, o.dead, sign, whole + rest);
    }
  }

  lemma NumberSound(s: Text, p: nat) returns (v: Value)
    requires p <= |s|
    ensures v.Number?
    ensures NumberEnd(s, p).Ok? ==> Spans(s, p, NumberEnd(s, p).pos, ValueText(v))
    ensures NumberEnd(s, p).Bad? ==> Starts(s, p, NumberEnd(s, p).dead, ValueText(v))
  {
    hide FracEnd, FracText, ExpText;
    var minus := At(s, p) == MINUS;
    var q := if minus then p + 1 else p;
    var sign := if minus then [MINUS] else [];
    assert Spans(s, p, q, sign);
    if !IsDigit(At(s, q)) {
      v := Number(minus, [ZERO], NoFrac, NoExp);
      assert s[p..q] <= ValueText(v);
    } else {
      var m := if At(s, q) == ZERO then q + 1 else DigitsEnd(s, q);
      var whole: IntDigits := s[q..m];
      var f, e := FracSound(s, m);
      v := Number(minus, whole, f, e);
      assert NumberEnd(s, p) == FracEnd(s, m);
      NumberParts(s, p, q, m, FracEnd(s, m), sign, whole, FracText(f) + ExpText(e));
    }
  }

  // --- Literals --------------------------------------------------------------------------

  lemma MatchSpans(s: Text, p: nat, word: Text)
    requires p <= |s|
    ensures Starts(s, p, p + MatchLength(s, p, word), word)
    ensures MatchLength(s, p, word) == |word| ==> Spans(s, p, p + |word|, word)
  {
    var n := MatchLength(s, p, word);
    assert s[p..p + n] == word[..n];
  }

  lemma LiteralSound(s: Text, p: nat) returns (w: Keyword)
    requires p <= |s|
    ensures LiteralEnd(s, p).Ok? ==> Spans(s, p, LiteralEnd(s, p).pos, w)
    ensures LiteralEnd(s, p).Bad? ==> Starts(s, p, LiteralEnd(s, p).dead, w)
  {
    var t, f, n := MatchLength(s, p, TRUE), MatchLength(s, p, FALSE), MatchLength(s, p, NULL);
    MatchSpans(s, p, TRUE);
    MatchSpans(s, p, FALSE);
    MatchSpans(s, p, NULL);
    if t == |TRUE| || (f != |FALSE| && n != |NULL| && f <= t && n <= t) {
      w := TRUE;
    } else if f == |FALSE| || (n != |NULL| && n <= f) {
      w := FALSE;
    } else {
      w := NULL;
    }
  }

  // --- Values ----------------------------------------------------------------------------

  // The tree for an accepted value, after the skipped whitespace.
  lemma {:induction false} ValueSound(s: Text, from: nat) returns (v: Value)
    requires from <= |s| && ValueEnd(s, from).Ok?
    ensures Spans(s, SkipWs(s, from), ValueEnd(s, from).pos, ValueText(v))
    decreases |s| - from, 1
  {
    hide ElementsEnd, MembersEnd, SkipWs, StringEnd, NumberEnd, LiteralEnd, StructuralText;
    var p := SkipWs(s, from);
    if s[p] != LBRACE && s[p] != LBRACKET {
      v := TokenSound(s, from);
    } else {
      var q, end := SkipWs(s, p + 1), ValueEnd(s, from).pos;
      var open := Structural([], Skipped(s, p + 1));
      SpansStructural(s, p, p, q, s[p], [], open.after);
      if s[p] == LBRACE && At(s, q) == RBRACE {
        v := EmptyObject(open, NO_SPACE);
        SpansStructural(s, q, q, q + 1, RBRACE, [], []);
        SpansCat(s, p, q, q + 1, StructuralText(LBRACE, open), StructuralText(RBRACE, NO_SPACE));
      } else if s[p] == LBRACKET && At(s, q) == RBRACKET {
        v := EmptyArray(open, NO_SPACE);
        SpansStructural(s, q, q, q + 1, RBRACKET, [], []);
        SpansCat(s, p, q, q + 1, StructuralText(LBRACKET, open), StructuralText(RBRACKET, NO_SPACE));
      } else if s[p] == LBRACE {
        assert ValueEnd(s, from) == MembersEnd(s, q);
        var ms, close := MembersSound(s, q);
        v := Object(open, ms, close);
        SpansCat(s, p, q, end, StructuralText(LBRACE, open), MembersText(ms) + StructuralText(RBRACE, close));
      } else {
        assert ValueEnd(s, from) == ElementsEnd(s, q);
        var es, close := ElementsSound(s, q);
        v := Array(open, es, close);
        SpansCat(s, p, q, end, StructuralText(LBRACKET, open), ElementsText(es) + StructuralText(RBRACKET, close));
      }
    }
  }

  lemma TokenSound(s: Text, from: nat) returns (v: Value)
    requires from <= |s| && ValueEnd(s, from).Ok?
    requires At(s, SkipWs(s, from)) != LBRACE && At(s, SkipWs(s, from)) != LBRACKET
    ensures Spans(s, SkipWs(s, from), ValueEnd(s, from).pos, ValueText(v))
  {
    hide ElementsEnd, MembersEnd, SkipWs, StringEnd, NumberEnd, LiteralEnd;
    var p, end := SkipWs(s, from), ValueEnd(s, from).pos;
    if s[p] == QUOTE {
      var cs := StringSound(s, p + 1);
      v := String(cs);
      SpansUnit(s, p, QUOTE);
      SpansCat(s, p, p + 1, end, [QUOTE], CharsText(cs));
    } else if s[p] == MINUS || IsDigit(s[p]) {
      v := NumberSound(s, p);
    } else {
      var w := LiteralSound(s, p);
      v := Literal(w);
    }
  }

  // The remaining elements and the closing bracket, after the skipped whitespace.
  lemma {:induction false} ElementsSound(s: Text, p: nat) returns (es: Elements, close: Structural)
    requires p <= |s| && ElementsEnd(s, p).Ok?
    ensures Spans(s, SkipWs(s, p), ElementsEnd(s, p).pos, ElementsText(es) + StructuralText(RBRACKET, close))
    decreases |s| - p, 2
  {
    hide ValueEnd, ElementsEnd, MembersEnd, NameEnd, SkipWs;
    ElementsStep(s, p);
    var e := ValueEnd(s, p).pos;
    var b, q, end := SkipWs(s, p), SkipWs(s, e), ElementsEnd(s, p).pos;
    var v := ValueSound(s, p);
    if At(s, q) == COMMA {
      var rest;
      rest, close := ElementsSound(s, q + 1);
      var comma := Structural(Skipped(s, e), Skipped(s, q + 1));
      es := MoreElements(v, comma, rest);
      var r, sep, tail := SkipWs(s, q + 1), StructuralText(COMMA, comma), StructuralText(RBRACKET, close);
      SpansStructural(s, e, q, r, COMMA, comma.before, comma.after);
      SpansCons(s, b, e, r, end, ValueText(v), sep, ElementsText(rest), tail);
    } else {
      es, close := LastElement(v), Structural(Skipped(s, e), []);
      SpansStructural(s, e, q, q + 1, RBRACKET, close.before, []);
      SpansCat(s, b, e, end, ValueText(v), StructuralText(RBRACKET, close));
    }
  }

  // An accepted name and colon, up to the value that must follow.
  lemma NameSound(s: Text, p: nat) returns (name: seq<Char>, colon: Structural)
    requires p <= |s| && NameEnd(s, p).Ok?
    ensures Spans(s, SkipWs(s, p), SkipWs(s, NameEnd(s, p).pos), StringText(name) + StructuralText(COLON, colon))
  {
    var b := SkipWs(s, p);
    name := StringSound(s, b + 1);
    var e := StringEnd(s, b + 1).pos;
    var c := SkipWs(s, e);
    var q := SkipWs(s, c + 1);
    colon := Structural(Skipped(s, e), Skipped(s, c + 1));
    SpansUnit(s, b, QUOTE);
    SpansCat(s, b, b + 1, e, [QUOTE], CharsText(name));
    SpansStructural(s, e, c, q, COLON, colon.before, colon.after);
    SpansCat(s, b, e, q, StringText(name), StructuralText(COLON, colon));
  }

  lemma {:induction false} MembersSound(s: Text, p: nat) returns (ms: Members, close: Structural)
    requires p <= |s| && MembersEnd(s, p).Ok?
    ensures Spans(s, SkipWs(s, p), MembersEnd(s, p).pos, MembersText(ms) + StructuralText(RBRACE, close))
    decreases |s| - p, 2
  {
    hide ValueEnd, ElementsEnd, MembersEnd, NameEnd, SkipWs;
    MembersStep(s, p);
    var c := NameEnd(s, p).pos;
    var e := ValueEnd(s, c).pos;
    var b, q, end := SkipWs(s, p), SkipWs(s, e), MembersEnd(s, p).pos;
    var name, colon := NameSound(s, p);
    var v := ValueSound(s, c);
    SpansCat(s, b, SkipWs(s, c), e, StringText(name) + StructuralText(COLON, colon), ValueText(v));
    if At(s, q) == COMMA {
      var rest;
      rest, close := MembersSound(s, q + 1);
      var comma := Structural(Skipped(s, e), Skipped(s, q + 1));
      ms := MoreMembers(name, colon, v, comma, rest);
      var r, sep, tail := SkipWs(s, q + 1), StructuralText(COMMA, comma), StructuralText(RBRACE, close);
      SpansStructural(s, e, q, r, COMMA, comma.before, comma.after);
      SpansCons(s, b, e, r, end, MemberText(name, colon, v), sep, MembersText(rest), tail);
    } else {
      ms, close := LastMember(name, colon, v), Structural(Skipped(s, e), []);
      SpansStructural(s, e, q, q + 1, RBRACE, close.before, []);
      SpansCat(s, b, e, end, MemberText(name, colon, v), StructuralText(RBRACE, close));
    }
  }

  // --- Rejected values -------------------------------------------------------------------

  // A value whose text starts with everything before the dead position.
  lemma {:induction false} ValueViable(s: Text, from: nat) returns (v: Value)
    requires from <= |s| && ValueEnd(s, from).Bad?
    ensures SkipWs(s, from) <= ValueEnd(s, from).dead
    ensures Starts(s, SkipWs(s, from), ValueEnd(s, from).dead, ValueText(v))
    decreases |s| - from, 1
  {
    hide ElementsEnd, MembersEnd, SkipWs, StringEnd, NumberEnd, LiteralEnd, StructuralText;
    var p := SkipWs(s, from);
    if p == |s| || (s[p] != LBRACE && s[p] != LBRACKET) {
      v := TokenViable(s, from);
    } else {
      var q, dead := SkipWs(s, p + 1), ValueEnd(s, from).dead;
      var open := Structural([], Skipped(s, p + 1));
      SpansStructural(s, p, p, q, s[p], [], open.after);
      if s[p] == LBRACE {
        assert ValueEnd(s, from) == MembersEnd(s, q);
        var ms := MembersViable(s, q);
        v := Object(open, ms, NO_SPACE);
        StartsMore(s, q, dead, MembersText(ms), StructuralText(RBRACE, NO_SPACE));
        StartsCat(s, p, q, dead, StructuralText(LBRACE, open), MembersText(ms) + StructuralText(RBRACE, NO_SPACE));
      } else {
        assert ValueEnd(s, from) == ElementsEnd(s, q);
        var es := ElementsViable(s, q);
        v := Array(open, es, NO_SPACE);
        StartsMore(s, q, dead, ElementsText(es), StructuralText(RBRACKET, NO_SPACE));
        StartsCat(s, p, q, dead, StructuralText(LBRACKET, open), ElementsText(es) + StructuralText(RBRACKET, NO_SPACE));
      }
    }
  }

  lemma TokenViable(s: Text, from: nat) returns (v: Value)
    requires from <= |s| && ValueEnd(s, from).Bad?
    requires At(s, SkipWs(s, from)) != LBRACE && At(s, SkipWs(s, from)) != LBRACKET
    ensures SkipWs(s, from) <= ValueEnd(s, from).dead
    ensures Starts(s, SkipWs(s, from), ValueEnd(s, from).dead, ValueText(v))
  {
    hide ElementsEnd, MembersEnd, SkipWs, StringEnd, NumberEnd, LiteralEnd;
    var p, dead := SkipWs(s, from), ValueEnd(s, from).dead;
    if p == |s| {
      v := SOME_VALUE;
    } else if s[p] == QUOTE {
      var cs := StringViable(s, p + 1);
      v := String(cs);
      SpansUnit(s, p, QUOTE);
      StartsCat(s, p, p + 1, dead, [QUOTE], CharsText(cs));
    } else if s[p] == MINUS || IsDigit(s[p]) {
      v := NumberSound(s, p);
    } else {
      var w := LiteralSound(s, p);
      v := Literal(w);
    }
  }

  lemma {:induction false} ElementsViable(s: Text, p: nat) returns (es: Elements)
    requires p <= |s| && ElementsEnd(s, p).Bad?
    ensures SkipWs(s, p) <= ElementsEnd(s, p).dead
    ensures Starts(s, SkipWs(s, p), ElementsEnd(s, p).dead, ElementsText(es))
    decreases |s| - p, 2
  {
    hide ValueEnd, ElementsEnd, MembersEnd, NameEnd, SkipWs;
    ElementsStep(s, p);
    var b, dead := SkipWs(s, p), ElementsEnd(s, p).dead;
    if ValueEnd(s, p).Bad? {
      var v := ValueViable(s, p);
      es := LastElement(v);
    } else {
      var e := ValueEnd(s, p).pos;
      var q := SkipWs(s, e);
      var v := ValueSound(s, p);
      if At(s, q) == COMMA {
        var rest := ElementsViable(s, q + 1);
        var comma := Structural(Skipped(s, e), Skipped(s, q + 1));
        es := MoreElements(v, comma, rest);
        var r, sep := SkipWs(s, q + 1), StructuralText(COMMA, comma);
        SpansStructural(s, e, q, r, COMMA, comma.before, comma.after);
        StartsCons(s, b, e, r, dead, ValueText(v), sep, ElementsText(rest));
      } else {
        var comma := Structural(Skipped(s, e), []);
        es := MoreElements(v, comma, LastElement(SOME_VALUE));
        StartsStuck(s, b, e, q, ValueText(v), COMMA, comma.before, ValueText(SOME_VALUE));
      }
    }
  }

  // A rejected name or colon; the member is completed with an arbitrary value.
  lemma NameViable(s: Text, p: nat) returns (name: seq<Char>, colon: Structural)
    requires p <= |s| && NameEnd(s, p).Bad?
    ensures SkipWs(s, p) <= NameEnd(s, p).dead
    ensures Starts(s, SkipWs(s, p), NameEnd(s, p).dead, MemberText(name, colon, SOME_VALUE))
  {
    var b, dead := SkipWs(s, p), NameEnd(s, p).dead;
    name, colon := [], NO_SPACE;
    if At(s, b) == QUOTE {
      SpansUnit(s, b, QUOTE);
      if StringEnd(s, b + 1).Bad? {
        name := StringViable(s, b + 1);
        StartsCat(s, b, b + 1, dead, [QUOTE], CharsText(name));
        StartsMore(s, b, dead, StringText(name), StructuralText(COLON, colon) + ValueText(SOME_VALUE));
        Assoc(StringText(name), StructuralText(COLON, colon), ValueText(SOME_VALUE));
      } else {
        name := StringSound(s, b + 1);
        var e := StringEnd(s, b + 1).pos;
        colon := Structural(Skipped(s, e), []);
        SpansCat(s, b, b + 1, e, [QUOTE], CharsText(name));
        StartsStuck(s, b, e, dead, StringText(name), COLON, colon.before, ValueText(SOME_VALUE));
        Assoc(StringText(name), StructuralText(COLON, colon), ValueText(SOME_VALUE));
      }
    }
  }

  lemma {:induction false} MembersViable(s: Text, p: nat) returns (ms: Members)
    requires p <= |s| && MembersEnd(s, p).Bad?
    ensures SkipWs(s, p) <= MembersEnd(s, p).dead
    ensures Starts(s, SkipWs(s, p), MembersEnd(s, p).dead, MembersText(ms))
    decreases |s| - p, 2
  {
    hide ValueEnd, ElementsEnd, MembersEnd, NameEnd, SkipWs;
    MembersStep(s, p);
    var b, dead := SkipWs(s, p), MembersEnd(s, p).dead;
    if NameEnd(s, p).Bad? {
      var name, colon := NameViable(s, p);
      ms := LastMember(name, colon, SOME_VALUE);
    } else {
      var name, colon := NameSound(s, p);
      var c := NameEnd(s, p).pos;
      var k := SkipWs(s, c);
      var head := StringText(name) + StructuralText(COLON, colon);
      if ValueEnd(s, c).Bad? {
        var v := ValueViable(s, c);
        ms := LastMember(name, colon, v);
        StartsCat(s, b, k, dead, head, ValueText(v));
      } else {
        var e := ValueEnd(s, c).pos;
        var v := ValueSound(s, c);
        SpansCat(s, b, k, e, head, ValueText(v));
        ms := MoreMembersViable(s, b, e, name, colon, v, MembersEnd(s, p));
      }
    }
  }

  // The same, once the first member up to e has been accepted.
  lemma {:induction false} MoreMembersViable(s: Text, b: nat, e: nat, name: seq<Char>, colon: Structural, v: Value,
                                             o: Outcome)
    returns (ms: Members)
    requires Spans(s, b, e, MemberText(name, colon, v))
    requires o == if At(s, SkipWs(s, e)) == COMMA then MembersEnd(s, SkipWs(s, e) + 1)
                  else Bad(SkipWs(s, e), SkipWs(s, e))
    requires o.Bad?
    ensures Starts(s, b, o.dead, MembersText(ms))
    decreases |s| - e, 3
  {
    hide ValueEnd, ElementsEnd, MembersEnd, NameEnd, SkipWs;
    var q, member := SkipWs(s, e), MemberText(name, colon, v);
    if At(s, q) == COMMA {
      var rest := MembersViable(s, q + 1);
      var comma := Structural(Skipped(s, e), Skipped(s, q + 1));
      ms := MoreMembers(name, colon, v, comma, rest);
      SpansStructural(s, e, q, SkipWs(s, q + 1), COMMA, comma.before, comma.after);
      StartsCons(s, b, e, SkipWs(s, q + 1), o.dead, member, StructuralText(COMMA, comma), MembersText(rest));
    } else {
      var comma, more := Structural(Skipped(s, e), []), LastMember([], NO_SPACE, SOME_VALUE);
      ms := MoreMembers(name, colon, v, comma, more);
      StartsStuck(s, b, e, q, member, COMMA, comma.before, MembersText(more));
    }
  }

  // --- Documents -------------------------------------------------------------------------

  lemma DocumentSound(s: Text)
    requires DocumentEnd(s).Ok?
    ensures IsJson(s)
  {
    var b, e := SkipWs(s, 0), ValueEnd(s, 0).pos;
    var v := ValueSound(s, 0);
    var d := Document(Skipped(s, 0), v, Skipped(s, e));
    SpansCat(s, b, e, |s|, ValueText(v), d.after);
    SpansCat(s, 0, b, |s|, d.before, ValueText(v) + d.after);
    assert s[0..|s|] == s;
    assert DocumentText(d) == s;
  }

  lemma DocumentViable(s: Text)
    requires DocumentEnd(s).Bad?
    ensures Viable(s[..DocumentEnd(s).dead])
  {
    var b, dead := SkipWs(s, 0), DocumentEnd(s).dead;
    var d;
    if ValueEnd(s, 0).Bad? {
      var v := ValueViable(s, 0);
      d := Document(Skipped(s, 0), v, []);
      StartsMore(s, b, dead, ValueText(v), d.after);
    } else {
      var v := ValueSound(s, 0);
      var e := ValueEnd(s, 0).pos;
      d := Document(Skipped(s, 0), v, Skipped(s, e));
      SpansCat(s, b, e, dead, ValueText(v), d.after);
    }
    StartsCat(s, 0, b, dead, d.before, ValueText(d.value) + d.after);
    assert s[0..dead] == s[..dead];
    assert s[..dead] <= DocumentText(d);
  }
}
