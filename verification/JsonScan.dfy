/**
 What the scanner of frontend/src/lib/jsonText.ts computes, as functions of the text and a
 start position.  An outcome is either the position after the accepted token, or the
 position at which the scanner gives up.  `dead` does not exist in the program: it is the
 first position whose code unit no JSON text can have there (the length of the text when
 the input merely ends too early).
 */
module JsonScan {
  import Basics
  import opened JsonGrammar

  datatype Outcome = Ok(pos: nat) | Bad(pos: nat, dead: nat)

  // src[pos]; -1 stands for JavaScript's undefined.
  function At(s: Text, p: nat): int { if p < |s| then s[p] else -1 }

  function SkipWs(s: Text, p: nat): (q: nat)
    requires p <= |s|
    ensures p <= q <= |s|
    ensures forall i :: p <= i < q ==> IsWs(s[i])
    ensures !IsWs(At(s, q))
    decreases |s| - p
  {
    if p < |s| && IsWs(s[p]) then SkipWs(s, p + 1) else p
  }

  function DigitsEnd(s: Text, p: nat): (q: nat)
    requires p <= |s|
    ensures p <= q <= |s|
    ensures forall i :: p <= i < q ==> IsDigit(s[i])
    ensures !IsDigit(At(s, q))
    decreases |s| - p
  {
    if p < |s| && IsDigit(s[p]) then DigitsEnd(s, p + 1) else p
  }

  // Length of the longest common prefix of word and s[p..].
  function MatchLength(s: Text, p: nat, word: Text): (n: nat)
    ensures n <= |word| && (0 < n ==> p + n <= |s|)
    ensures forall i :: p <= i < p + n ==> s[i] == word[i - p]
    ensures n < |word| ==> At(s, p + n) != word[n]
    decreases |word|
  {
    if word == [] || At(s, p) != word[0] then 0 else 1 + MatchLength(s, p + 1, word[1..])
  }

  // Number of hexadecimal digits at p, at most four.
  function HexRun(s: Text, p: nat): (n: nat)
    ensures n <= 4 && (0 < n ==> p + n <= |s|)
    ensures forall i :: p <= i < p + n ==> IsHex(s[i])
    ensures n < 4 ==> !IsHex(At(s, p + n))
  {
    if !IsHex(At(s, p)) then 0
    else if !IsHex(At(s, p + 1)) then 1
    else if !IsHex(At(s, p + 2)) then 2
    else if !IsHex(At(s, p + 3)) then 3
    else 4
  }

  ghost predicate InBounds(s: Text, p: nat, o: Outcome) {
    match o
    case Ok(e) => p <= e <= |s|
    case Bad(e, d) => p <= e <= d <= |s|
  }

  // p is the position after the opening quote.
  function StringEnd(s: Text, p: nat): (o: Outcome)
    requires p <= |s|
    ensures InBounds(s, p, o) && (o.Ok? ==> p < o.pos)
    decreases |s| - p
  {
    if p == |s| then Bad(p, p)
    else if s[p] == QUOTE then Ok(p + 1)
    else if s[p] == BACKSLASH then
      if At(s, p + 1) == LOWER_U then
        if HexRun(s, p + 2) < 4 then Bad(p, p + 2 + HexRun(s, p + 2)) else StringEnd(s, p + 6)
      else if !IsEscapeLetter(At(s, p + 1)) then Bad(p, p + 1)
      else StringEnd(s, p + 2)
    else if s[p] < SPACE then Bad(p, p)
    else StringEnd(s, p + 1)
  }

  function ExpEnd(s: Text, p: nat): (o: Outcome)
    requires p <= |s|
    ensures InBounds(s, p, o)
  {
    if !IsExpMark(At(s, p)) then Ok(p) else
      var q := if IsSign(At(s, p + 1)) then p + 2 else p + 1;
      if IsDigit(At(s, q)) then Ok(DigitsEnd(s, q)) else Bad(q, q)
  }

  function FracEnd(s: Text, p: nat): (o: Outcome)
    requires p <= |s|
    ensures InBounds(s, p, o)
  {
    if At(s, p) != DOT then ExpEnd(s, p)
    else if IsDigit(At(s, p + 1)) then ExpEnd(s, DigitsEnd(s, p + 1))
    else Bad(p + 1, p + 1)
  }

  function NumberEnd(s: Text, p: nat): (o: Outcome)
    requires p <= |s|
    ensures InBounds(s, p, o) && (o.Ok? ==> p < o.pos)
  {
    var q := if At(s, p) == MINUS then p + 1 else p;
    if At(s, q) == ZERO then FracEnd(s, q + 1)
    else if IsDigit(At(s, q)) then FracEnd(s, DigitsEnd(s, q))
    else Bad(q, q)
  }

  function LiteralEnd(s: Text, p: nat): (o: Outcome)
    requires p <= |s|
    ensures InBounds(s, p, o) && (o.Ok? ==> p < o.pos)
  {
    var t, f, n := MatchLength(s, p, TRUE), MatchLength(s, p, FALSE), MatchLength(s, p, NULL);
    if t == |TRUE| then Ok(p + t)
    else if f == |FALSE| then Ok(p + f)
    else if n == |NULL| then Ok(p + n)
    else Bad(p, p + Basics.Max(t, Basics.Max(f, n)))
  }

  function ValueEnd(s: Text, from: nat): (o: Outcome)
    requires from <= |s|
    ensures InBounds(s, from, o) && (o.Ok? ==> from < o.pos)
    decreases |s| - from, 1
  {
    var p := SkipWs(s, from);
    if p == |s| then Bad(p, p)
    else if s[p] == LBRACE then
      var q := SkipWs(s, p + 1);
      if At(s, q) == RBRACE then Ok(q + 1) else MembersEnd(s, q)
    else if s[p] == LBRACKET then
      var q := SkipWs(s, p + 1);
      if At(s, q) == RBRACKET then Ok(q + 1) else ElementsEnd(s, q)
    else if s[p] == QUOTE then StringEnd(s, p + 1)
    else if s[p] == MINUS || IsDigit(s[p]) then NumberEnd(s, p)
    else LiteralEnd(s, p)
  }

  // One pass of the array loop: an element, then a comma and the rest, or the bracket.
  function ElementsEnd(s: Text, p: nat): (o: Outcome)
    requires p <= |s|
    ensures InBounds(s, p, o) && (o.Ok? ==> p < o.pos)
    decreases |s| - p, 2
  {
    match ValueEnd(s, p)
    case Bad(e, d) => Bad(e, d)
    case Ok(e) =>
      var q := SkipWs(s, e);
      if At(s, q) == COMMA then ElementsEnd(s, q + 1)
      else if At(s, q) == RBRACKET then Ok(q + 1)
      else Bad(q, q)
  }

  // A member's name and colon; the outcome is the position after the colon.
  function NameEnd(s: Text, p: nat): (o: Outcome)
    requires p <= |s|
    ensures InBounds(s, p, o) && (o.Ok? ==> p < o.pos)
  {
    var q := SkipWs(s, p);
    if At(s, q) != QUOTE then Bad(q, q) else
      match StringEnd(s, q + 1)
      case Bad(e, d) => Bad(e, d)
      case Ok(e) =>
        var c := SkipWs(s, e);
        if At(s, c) == COLON then Ok(c + 1) else Bad(c, c)
  }

  // One pass of the object loop: a member, then a comma and the rest, or the brace.
  function MembersEnd(s: Text, p: nat): (o: Outcome)
    requires p <= |s|
    ensures InBounds(s, p, o) && (o.Ok? ==> p < o.pos)
    decreases |s| - p, 2
  {
    match NameEnd(s, p)
    case Bad(e, d) => Bad(e, d)
    case Ok(c) =>
      match ValueEnd(s, c)
      case Bad(e, d) => Bad(e, d)
      case Ok(e) =>
        var q := SkipWs(s, e);
        if At(s, q) == COMMA then MembersEnd(s, q + 1)
        else if At(s, q) == RBRACE then Ok(q + 1)
        else Bad(q, q)
  }

  function DocumentEnd(s: Text): (o: Outcome)
    ensures InBounds(s, 0, o)
    ensures o.Ok? ==> o.pos == |s|
  {
    match ValueEnd(s, 0)
    case Bad(e, d) => Bad(e, d)
    case Ok(e) =>
      var q := SkipWs(s, e);
      if q < |s| then Bad(q, q) else Ok(q)
  }

  // --- One unfolding of each loop, for proofs that hide the definitions -------------------

  lemma ElementsStep(s: Text, p: nat)
    requires p <= |s|
    ensures ValueEnd(s, p).Bad? ==> ElementsEnd(s, p) == ValueEnd(s, p)
    ensures ValueEnd(s, p).Ok? ==>
              var q := SkipWs(s, ValueEnd(s, p).pos);
              ElementsEnd(s, p) == if At(s, q) == COMMA then ElementsEnd(s, q + 1)
                                   else if At(s, q) == RBRACKET then Ok(q + 1) else Bad(q, q)
  {
    hide ValueEnd, MembersEnd, SkipWs;
  }

  lemma MembersStep(s: Text, p: nat)
    requires p <= |s|
    ensures NameEnd(s, p).Bad? ==> MembersEnd(s, p) == NameEnd(s, p)
    ensures NameEnd(s, p).Ok? && ValueEnd(s, NameEnd(s, p).pos).Bad? ==>
              MembersEnd(s, p) == ValueEnd(s, NameEnd(s, p).pos)
    ensures NameEnd(s, p).Ok? && ValueEnd(s, NameEnd(s, p).pos).Ok? ==>
              var q := SkipWs(s, ValueEnd(s, NameEnd(s, p).pos).pos);
              MembersEnd(s, p) == if At(s, q) == COMMA then MembersEnd(s, q + 1)
                                  else if At(s, q) == RBRACE then Ok(q + 1) else Bad(q, q)
  {
    hide ValueEnd, ElementsEnd, NameEnd, SkipWs;
  }
}
