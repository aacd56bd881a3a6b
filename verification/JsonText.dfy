/**
 The editor linter's scanner (frontend/src/lib/jsonText.ts): nested closures that share the
 mutable `pos` and `line`, here the fields of an object.
 */
module JsonText {
  import opened JsonGrammar
  import opened JsonScan
  import JsonCompleteness
  import Basics

  // What String.prototype.trim removes.
  predicate IsTrimmed(c: CodeUnit) {
    || 0x09 <= c <= 0x0D || c == 0x20 || c == 0xA0 || c == 0x1680 || 0x2000 <= c <= 0x200A
    || c == 0x2028 || c == 0x2029 || c == 0x202F || c == 0x205F || c == 0x3000 || c == 0xFEFF
  }

  // By character: the white space and line terminators of ECMA-262, section 12.
  lemma TrimmedCharacters(c: CodeUnit)
    ensures IsTrimmed(c) <==>
            c in {0x09, 0x0A, 0x0B, 0x0C, 0x0D, 0x20, 0xA0, 0x1680, 0x2000, 0x2001, 0x2002, 0x2003, 0x2004, 0x2005,
                  0x2006, 0x2007, 0x2008, 0x2009, 0x200A, 0x2028, 0x2029, 0x202F, 0x205F, 0x3000, 0xFEFF}
    ensures IsWs(c) ==> IsTrimmed(c)
  {
  }

  predicate IsBlank(s: Text) { forall i :: 0 <= i < |s| ==> IsTrimmed(s[i]) }

  function Newlines(s: Text): nat {
    if s == [] then 0
    else Newlines(s[..|s| - 1]) + (if s[|s| - 1] == LF then 1 else 0)
  }

  lemma NewlinesStep(s: Text, p: nat)
    requires p < |s|
    ensures Newlines(s[..p + 1]) == Newlines(s[..p]) + (if s[p] == LF then 1 else 0)
  {
    assert s[..p + 1][..p] == s[..p];
  }

  lemma {:induction false} NoNewlines(s: Text, p: nat, q: nat)
    requires p <= q <= |s| && forall i :: p <= i < q ==> s[i] != LF
    ensures Newlines(s[..q]) == Newlines(s[..p])
    decreases q
  {
    if p < q {
      NewlinesStep(s, q - 1);
      NoNewlines(s, p, q - 1);
    }
  }

  // The text between the failing position and the dead position holds no line break.
  lemma {:induction false} StringGap(s: Text, p: nat)
    requires p <= |s| && StringEnd(s, p).Bad?
    ensures Newlines(s[..StringEnd(s, p).dead]) == Newlines(s[..StringEnd(s, p).pos])
    decreases |s| - p
  {
    var o := StringEnd(s, p);
    if o.pos == p {
      NoNewlines(s, p, o.dead);
    } else {
      assert o == StringEnd(s, p + 1) || o == StringEnd(s, p + 2) || o == StringEnd(s, p + 6);
      if s[p] != BACKSLASH {
        StringGap(s, p + 1);
      } else if s[p + 1] == LOWER_U {
        StringGap(s, p + 6);
      } else {
        StringGap(s, p + 2);
      }
    }
  }

  ghost predicate SameLine(s: Text, o: Outcome) {
    o.Bad? ==> o.pos <= o.dead <= |s| && Newlines(s[..o.dead]) == Newlines(s[..o.pos])
  }

  lemma LiteralGap(s: Text, p: nat)
    requires p <= |s|
    ensures SameLine(s, LiteralEnd(s, p))
  {
    var o := LiteralEnd(s, p);
    if o.Bad? {
      forall i | p <= i < o.dead
        ensures s[i] != LF
      {
        var t, f, n := MatchLength(s, p, TRUE), MatchLength(s, p, FALSE), MatchLength(s, p, NULL);
        var w := if i < p + t then TRUE else if i < p + f then FALSE else NULL;
        assert s[i] == w[i - p];
      }
      NoNewlines(s, p, o.dead);
    }
  }

  lemma {:induction false} ValueGap(s: Text, from: nat)
    requires from <= |s|
    ensures SameLine(s, ValueEnd(s, from))
    decreases |s| - from, 1
  {
    hide ElementsEnd, MembersEnd, SkipWs, StringEnd, LiteralEnd, Newlines;
    var p := SkipWs(s, from);
    if p < |s| {
      if s[p] == LBRACE {
        MembersGap(s, SkipWs(s, p + 1));
      } else if s[p] == LBRACKET {
        ElementsGap(s, SkipWs(s, p + 1));
      } else if s[p] == QUOTE {
        if StringEnd(s, p + 1).Bad? { StringGap(s, p + 1); }
      } else {
        LiteralGap(s, p);
      }
    }
  }

  lemma {:induction false} ElementsGap(s: Text, p: nat)
    requires p <= |s|
    ensures SameLine(s, ElementsEnd(s, p))
    decreases |s| - p, 2
  {
    hide ValueEnd, ElementsEnd, MembersEnd, SkipWs, Newlines;
    ElementsStep(s, p);
    ValueGap(s, p);
    if ValueEnd(s, p).Ok? {
      var q := SkipWs(s, ValueEnd(s, p).pos);
      if At(s, q) == COMMA { ElementsGap(s, q + 1); }
    }
  }

  lemma NameGap(s: Text, p: nat)
    requires p <= |s|
    ensures SameLine(s, NameEnd(s, p))
  {
    hide SkipWs, StringEnd, Newlines;
    var q := SkipWs(s, p);
    if At(s, q) == QUOTE && StringEnd(s, q + 1).Bad? { StringGap(s, q + 1); }
  }

  lemma {:induction false} MembersGap(s: Text, p: nat)
    requires p <= |s|
    ensures SameLine(s, MembersEnd(s, p))
    decreases |s| - p, 2
  {
    hide ValueEnd, ElementsEnd, MembersEnd, NameEnd, SkipWs, Newlines;
    MembersStep(s, p);
    NameGap(s, p);
    if NameEnd(s, p).Ok? {
      ValueGap(s, NameEnd(s, p).pos);
      if ValueEnd(s, NameEnd(s, p).pos).Ok? {
        var q := SkipWs(s, ValueEnd(s, NameEnd(s, p).pos).pos);
        if At(s, q) == COMMA { MembersGap(s, q + 1); }
      }
    }
  }

  class Scanner {
    const src: Text
    var pos: nat
    var line: nat

    ghost predicate Valid()
      reads this
    {
      pos <= |src| && line == 1 + Newlines(src[..pos])
    }

    // What a scanning method leaves behind for outcome o.
    ghost predicate Left(o: Outcome, ok: bool)
      reads this
    {
      Valid() && ok == o.Ok? && pos == o.pos
    }

    constructor (text: Text)
      ensures src == text && pos == 0 && Valid()
    {
      src, pos, line := text, 0, 1;
    }

    method SkipSpace()
      requires Valid()
      modifies this
      ensures Valid() && pos == SkipWs(src, old(pos))
    {
      while pos < |src| && IsWs(src[pos])
        invariant Valid() && SkipWs(src, pos) == SkipWs(src, old(pos))
        decreases |src| - pos
      {
        NewlinesStep(src, pos);
        if src[pos] == LF {
          line := line + 1;
        }
        pos := pos + 1;
      }
    }

    method MatchKeyword(word: Text) returns (ok: bool)
      requires Valid() && LF !in word
      modifies this
      ensures Valid() && ok == (MatchLength(src, old(pos), word) == |word|)
      ensures pos == if ok then old(pos) + |word| else old(pos)
    {
      ok := pos + |word| <= |src| && src[pos..pos + |word|] == word;
      ghost var n := MatchLength(src, pos, word);
      assert forall i :: pos <= i < pos + |word| && i < |src| && ok ==> src[i] == src[pos..pos + |word|][i - pos];
      assert n == |word| ==> (forall i :: 0 <= i < |word| ==> src[pos..pos + |word|][i] == word[i]);
      if ok {
        NoNewlines(src, pos, pos + |word|);
        pos := pos + |word|;
      }
    }

    // Moves over n code units that are not line breaks.
    method Advance(n: nat := 1)
      requires Valid() && pos + n <= |src| && forall i :: pos <= i < pos + n ==> src[i] != LF
      modifies this
      ensures Valid() && pos == old(pos) + n
    {
      NoNewlines(src, pos, pos + n);
      pos := pos + n;
    }

    method ScanString() returns (ok: bool)
      requires Valid() && pos < |src| && src[pos] == QUOTE
      modifies this
      ensures Left(StringEnd(src, old(pos) + 1), ok)
    {
      hide Newlines;
      Advance();
      while pos < |src|
        invariant Valid() && StringEnd(src, pos) == StringEnd(src, old(pos) + 1)
        decreases |src| - pos
      {
        if src[pos] == QUOTE {
          Advance();
          return true;
        }
        if src[pos] == BACKSLASH {
          if At(src, pos + 1) == LOWER_U {
            if !(pos + 6 <= |src| && IsHex(src[pos + 2]) && IsHex(src[pos + 3])
                 && IsHex(src[pos + 4]) && IsHex(src[pos + 5])) {
              return false;
            }
            Advance(6);
            continue;
          }
          if !IsEscapeLetter(At(src, pos + 1)) {
            return false;
          }
          Advance(2);
          continue;
        }
        if src[pos] < SPACE {
          return false;
        }
        Advance();
      }
      return false;
    }

    method SkipDigits()
      requires Valid()
      modifies this
      ensures Valid() && pos == DigitsEnd(src, old(pos))
    {
      while pos < |src| && IsDigit(src[pos])
        invariant Valid() && DigitsEnd(src, pos) == DigitsEnd(src, old(pos))
        decreases |src| - pos
      {
        Advance();
      }
    }

    method ScanNumber() returns (ok: bool)
      requires Valid()
      modifies this
      ensures Left(NumberEnd(src, old(pos)), ok)
    {
      hide DigitsEnd, FracEnd, Newlines;
      if At(src, pos) == MINUS { Advance(); }
      if At(src, pos) == ZERO {
        Advance();
      } else if 0x31 <= At(src, pos) <= 0x39 {
        SkipDigits();
      } else {
        return false;
      }
      ok := ScanFraction();
    }

    // The optional fraction and exponent, the second half of scanNumber.
    method ScanFraction() returns (ok: bool)
      requires Valid()
      modifies this
      ensures Left(FracEnd(src, old(pos)), ok)
    {
      hide DigitsEnd, ExpEnd, Newlines;
      if At(src, pos) == DOT {
        Advance();
        if !IsDigit(At(src, pos)) { return false; }
        SkipDigits();
      }
      ok := ScanExponent();
    }

    method ScanExponent() returns (ok: bool)
      requires Valid()
      modifies this
      ensures Left(ExpEnd(src, old(pos)), ok)
    {
      hide DigitsEnd, Newlines;
      if IsExpMark(At(src, pos)) {
        Advance();
        if IsSign(At(src, pos)) { Advance(); }
        if !IsDigit(At(src, pos)) { return false; }
        SkipDigits();
      }
      return true;
    }

    // A member's name and colon, the first half of scanObject's loop.
    method ScanName() returns (ok: bool)
      requires Valid()
      modifies this
      ensures Left(NameEnd(src, old(pos)), ok)
    {
      hide SkipWs, StringEnd, Newlines;
      SkipSpace();
      if At(src, pos) != QUOTE { return false; }
      ok := ScanString();
      if !ok { return false; }
      SkipSpace();
      if At(src, pos) != COLON { return false; }
      Advance();
    }

    method ScanObject() returns (ok: bool)
      requires Valid() && pos < |src| && src[pos] == LBRACE
      modifies this
      ensures var q := SkipWs(src, old(pos) + 1);
              Left(if At(src, q) == RBRACE then Ok(q + 1) else MembersEnd(src, q), ok)
      decreases |src| - pos, 0
    {
      hide ValueEnd, MembersEnd, ElementsEnd, NameEnd, SkipWs, StringEnd, Newlines;
      ghost var start := pos;
      Advance();
      SkipSpace();
      if At(src, pos) == RBRACE {
        Advance();
        return true;
      }
      ghost var first := pos;
      while true
        invariant Valid() && start < pos && MembersEnd(src, pos) == MembersEnd(src, first)
        decreases |src| - pos
      {
        MembersStep(src, pos);
        ok := ScanName();
        if !ok { return false; }
        ok := ScanValue();
        if !ok { return false; }
        SkipSpace();
        if At(src, pos) == COMMA {
          Advance();
          continue;
        }
        if At(src, pos) == RBRACE {
          Advance();
          return true;
        }
        return false;
      }
    }

    method ScanArray() returns (ok: bool)
      requires Valid() && pos < |src| && src[pos] == LBRACKET
      modifies this
      ensures var q := SkipWs(src, old(pos) + 1);
              Left(if At(src, q) == RBRACKET then Ok(q + 1) else ElementsEnd(src, q), ok)
      decreases |src| - pos, 0
    {
      hide ValueEnd, MembersEnd, ElementsEnd, SkipWs, Newlines;
      ghost var start := pos;
      Advance();
      SkipSpace();
      if At(src, pos) == RBRACKET {
        Advance();
        return true;
      }
      ghost var first := pos;
      while true
        invariant Valid() && start < pos && ElementsEnd(src, pos) == ElementsEnd(src, first)
        decreases |src| - pos
      {
        ElementsStep(src, pos);
        ok := ScanValue();
        if !ok { return false; }
        SkipSpace();
        if At(src, pos) == COMMA {
          Advance();
          continue;
        }
        if At(src, pos) == RBRACKET {
          Advance();
          return true;
        }
        return false;
      }
    }

    method ScanValue() returns (ok: bool)
      requires Valid()
      modifies this
      ensures Left(ValueEnd(src, old(pos)), ok)
      decreases |src| - pos, 1
    {
      hide MembersEnd, ElementsEnd, SkipWs, StringEnd, NumberEnd, Newlines;
      SkipSpace();
      if pos >= |src| { return false; }
      if src[pos] == LBRACE {
        ok := ScanObject();
      } else if src[pos] == LBRACKET {
        ok := ScanArray();
      } else if src[pos] == QUOTE {
        ok := ScanString();
      } else if src[pos] == MINUS || IsDigit(src[pos]) {
        ok := ScanNumber();
      } else {
        ok := MatchKeyword(TRUE);
        if !ok { ok := MatchKeyword(FALSE); }
        if !ok { ok := MatchKeyword(NULL); }
      }
    }
  }

  // n is the length of the longest prefix of s that some continuation completes to JSON.
  ghost predicate IsLongestViable(s: Text, n: nat) {
    n <= |s| && Viable(s[..n]) && forall m :: n < m <= |s| ==> !Viable(s[..m])
  }

  /** The line of the first syntax error; None when there is none or nothing to check. */
  method JsonErrorLine(text: Text) returns (r: Basics.Option<nat>)
    ensures IsBlank(text) ==> r == Basics.None
    ensures (forall i :: 0 <= i < |text| ==> IsWs(text[i])) ==> r == Basics.None
    ensures !IsBlank(text) ==> (r.None? <==> IsJson(text))
    ensures (exists i :: 0 <= i < |text| && 0x21 <= text[i] <= 0x7E) ==> (r.None? <==> IsJson(text))
    ensures r.Some? ==> exists n: nat :: IsLongestViable(text, n) && r.value == 1 + Newlines(text[..n])
  {
    assert (forall i :: 0 <= i < |text| ==> IsWs(text[i])) ==> IsBlank(text);
    assert (exists i :: 0 <= i < |text| && 0x21 <= text[i] <= 0x7E) ==> !IsBlank(text);
    if IsBlank(text) { return Basics.None; }
    hide IsTrimmed, IsWs;
    JsonCompleteness.AcceptsExactlyJson(text);
    ghost var o := DocumentEnd(text);
    if o.Bad? {
      JsonCompleteness.DeadEndsLongestViablePrefix(text);
      ValueGap(text, 0);
      assert IsLongestViable(text, o.dead);
    }
    hide ValueEnd, SkipWs, IsJson, Viable;
    var scanner := new Scanner(text);
    var ok := scanner.ScanValue();
    if !ok { return Basics.Some(scanner.line); }
    scanner.SkipSpace();
    r := if scanner.pos < |text| then Basics.Some(scanner.line) else Basics.None;
  }
}
