/**
 The JSON grammar of sections 2 to 7 of RFC 8259, written as derivation trees over UTF-16
 code units together with the text each tree derives.  Nothing here mentions the scanner:
 a text is JSON exactly when some tree derives it.
 */
module JsonGrammar {

  // JavaScript strings are sequences of 16-bit code units.
  type CodeUnit = c: int | 0 <= c < 0x10000
  type Text = seq<CodeUnit>

  const LF: CodeUnit := 0x0A
  const CR: CodeUnit := 0x0D
  const SPACE: CodeUnit := 0x20
  const QUOTE: CodeUnit := 0x22
  const PLUS: CodeUnit := 0x2B
  const COMMA: CodeUnit := 0x2C
  const MINUS: CodeUnit := 0x2D
  const DOT: CodeUnit := 0x2E
  const ZERO: CodeUnit := 0x30
  const COLON: CodeUnit := 0x3A
  const LBRACKET: CodeUnit := 0x5B
  const BACKSLASH: CodeUnit := 0x5C
  const RBRACKET: CodeUnit := 0x5D
  const LOWER_U: CodeUnit := 0x75
  const LBRACE: CodeUnit := 0x7B
  const RBRACE: CodeUnit := 0x7D

  const TRUE: Text := [0x74, 0x72, 0x75, 0x65]
  const FALSE: Text := [0x66, 0x61, 0x6C, 0x73, 0x65]
  const NULL: Text := [0x6E, 0x75, 0x6C, 0x6C]

  predicate IsWs(c: int) { c == 0x20 || c == 0x09 || c == 0x0A || c == 0x0D }
  predicate IsDigit(c: int) { 0x30 <= c <= 0x39 }
  predicate IsHex(c: int) { IsDigit(c) || 0x41 <= c <= 0x46 || 0x61 <= c <= 0x66 }
  predicate IsExpMark(c: int) { c == 0x65 || c == 0x45 }
  predicate IsSign(c: int) { c == 0x2B || c == 0x2D }

  // The one-letter escapes: " \ / b f n r t
  predicate IsEscapeLetter(c: int) {
    c == 0x22 || c == 0x5C || c == 0x2F || c == 0x62 || c == 0x66 || c == 0x6E || c == 0x72 || c == 0x74
  }

  predicate IsUnescaped(c: int) { 0x20 <= c && c != 0x22 && c != 0x5C }

  // The classes as section 2 to section 7 of RFC 8259 name their characters.
  lemma CharacterClasses(c: CodeUnit)
    requires c < 0xD800
    ensures IsWs(c) <==> c as char in " \t\n\r"
    ensures IsDigit(c) <==> c as char in "0123456789"
    ensures IsHex(c) <==> c as char in "0123456789abcdefABCDEF"
    ensures IsExpMark(c) <==> c as char in "eE"
    ensures IsSign(c) <==> c as char in "+-"
    ensures IsEscapeLetter(c) <==> c as char in "\"\\/bfnrt"
  {
  }

  type Ws = w: Text | forall i :: 0 <= i < |w| ==> IsWs(w[i])
  type Digits = d: Text | 0 < |d| && forall i :: 0 <= i < |d| ==> IsDigit(d[i]) witness [0x30]
  type IntDigits = d: Digits | |d| == 1 || d[0] != ZERO witness [0x30]
  type Keyword = w: Text | w == TRUE || w == FALSE || w == NULL witness TRUE
  type Unescaped = c: CodeUnit | IsUnescaped(c) witness 0x20
  type EscapeLetter = c: CodeUnit | IsEscapeLetter(c) witness 0x22
  type HexDigit = c: CodeUnit | IsHex(c) witness 0x30
  type ExpMark = c: CodeUnit | IsExpMark(c) witness 0x65
  type OptSign = t: Text | t == [] || t == [PLUS] || t == [MINUS]

  datatype Char =
    | Plain(unit: Unescaped)
    | Escape(letter: EscapeLetter)
    | Unicode(h0: HexDigit, h1: HexDigit, h2: HexDigit, h3: HexDigit)

  datatype Frac = NoFrac | Frac(digits: Digits)
  datatype Exp = NoExp | Exp(mark: ExpMark, sign: OptSign, digits: Digits)

  // A structural character, with the insignificant whitespace allowed on both sides of it.
  datatype Structural = Structural(before: Ws, after: Ws)

  datatype Value =
    | Literal(word: Keyword)
    | Number(minus: bool, integer: IntDigits, frac: Frac, exp: Exp)
    | String(chars: seq<Char>)
    | EmptyArray(open: Structural, close: Structural)
    | Array(open: Structural, elements: Elements, close: Structural)
    | EmptyObject(open: Structural, close: Structural)
    | Object(open: Structural, members: Members, close: Structural)

  datatype Elements =
    | LastElement(value: Value)
    | MoreElements(value: Value, comma: Structural, rest: Elements)

  datatype Members =
    | LastMember(name: seq<Char>, colon: Structural, value: Value)
    | MoreMembers(name: seq<Char>, colon: Structural, value: Value, comma: Structural, rest: Members)

  datatype Document = Document(before: Ws, value: Value, after: Ws)

  function StructuralText(c: CodeUnit, s: Structural): Text { s.before + [c] + s.after }

  function CharText(c: Char): Text {
    match c
    case Plain(u) => [u]
    case Escape(l) => [BACKSLASH, l]
    case Unicode(a, b, c, d) => [BACKSLASH, LOWER_U, a, b, c, d]
  }

  // The characters of a string up to and including the closing quote.
  function CharsText(cs: seq<Char>): Text {
    if cs == [] then [QUOTE] else CharText(cs[0]) + CharsText(cs[1..])
  }

  function StringText(cs: seq<Char>): Text { [QUOTE] + CharsText(cs) }

  function FracText(f: Frac): Text { if f.NoFrac? then [] else [DOT] + f.digits }

  function ExpText(e: Exp): Text { if e.NoExp? then [] else [e.mark] + (e.sign + e.digits) }

  function NumberText(minus: bool, integer: Text, frac: Frac, exp: Exp): Text {
    (if minus then [MINUS] else []) + (integer + (FracText(frac) + ExpText(exp)))
  }

  function ValueText(v: Value): Text
    decreases v, 0
  {
    match v
    case Literal(w) => w
    case Number(m, i, f, e) => NumberText(m, i, f, e)
    case String(cs) => StringText(cs)
    case EmptyArray(o, c) => StructuralText(LBRACKET, o) + StructuralText(RBRACKET, c)
    case Array(o, es, c) => StructuralText(LBRACKET, o) + (ElementsText(es) + StructuralText(RBRACKET, c))
    case EmptyObject(o, c) => StructuralText(LBRACE, o) + StructuralText(RBRACE, c)
    case Object(o, ms, c) => StructuralText(LBRACE, o) + (MembersText(ms) + StructuralText(RBRACE, c))
  }

  function ElementsText(es: Elements): Text {
    match es
    case LastElement(v) => ValueText(v)
    case MoreElements(v, c, rest) => ValueText(v) + (StructuralText(COMMA, c) + ElementsText(rest))
  }

  function MemberText(name: seq<Char>, colon: Structural, v: Value): Text
    decreases v, 1
  {
    StringText(name) + StructuralText(COLON, colon) + ValueText(v)
  }

  function MembersText(ms: Members): Text {
    match ms
    case LastMember(n, k, v) => MemberText(n, k, v)
    case MoreMembers(n, k, v, c, rest) => MemberText(n, k, v) + (StructuralText(COMMA, c) + MembersText(rest))
  }

  function DocumentText(d: Document): Text { d.before + (ValueText(d.value) + d.after) }

  ghost predicate IsJson(s: Text) { exists d: Document :: DocumentText(d) == s }

  // Some continuation of s is JSON.
  ghost predicate Viable(s: Text) { exists d: Document :: s <= DocumentText(d) }
}
