/**
 The parser for pasted Java properties (backend/internal/kafkaconn/props.go). The program works
 on bytes; a string here holds one byte per character.
 */
module PropertiesText {
  import opened Basics

  const FORM_FEED := '\U{C}'
  const BLANKS := {' ', '\t', FORM_FEED}
  const RETURNS := {'\r'}
  const SLASH := '\\'

  // --- Logical lines -----------------------------------------------------------------------------

  function TrailingSlashes(s: string): (n: nat)
    ensures n <= |s|
  {
    if s != "" && s[|s| - 1] == SLASH then 1 + TrailingSlashes(s[..|s| - 1]) else 0
  }

  predicate EvenTail(s: string) { TrailingSlashes(s) % 2 == 0 }

  // The logical lines so far, and what a continued line has left behind.
  datatype Lines = Lines(logical: seq<string>, pending: string)

  // One physical line put after the pending text.
  function Extend(pending: string, physical: string): string {
    var raw := TrimRight(physical, RETURNS);
    pending + (if pending != "" then TrimLeft(raw, BLANKS) else raw)
  }

  function Absorb(s: Lines, physical: string): Lines {
    var line := Extend(s.pending, physical);
    if EvenTail(line) then Lines(s.logical + [line], "") else Lines(s.logical, line[..|line| - 1])
  }

  function AbsorbAll(raws: seq<string>): Lines {
    if raws == [] then Lines([], "") else Absorb(AbsorbAll(raws[..|raws| - 1]), raws[|raws| - 1])
  }

  function LogicalLines(raws: seq<string>): seq<string> {
    var s := AbsorbAll(raws);
    if s.pending != "" then s.logical + [s.pending] else s.logical
  }

  method CountTrailingSlashes(line: string) returns (trailing: nat)
    ensures trailing == TrailingSlashes(line) && (trailing % 2 == 1 <==> !EvenTail(line))
  {
    trailing := 0;
    assert line[..|line|] == line;
    while trailing < |line| && line[|line| - 1 - trailing] == SLASH
      invariant trailing <= |line|
      invariant trailing + TrailingSlashes(line[..|line| - trailing]) == TrailingSlashes(line)
    {
      var head := line[..|line| - trailing];
      assert head[..|head| - 1] == line[..|line| - trailing - 1];
      trailing := trailing + 1;
    }
  }

  // The loop has absorbed the first i physical lines.
  ghost predicate Absorbed(raws: seq<string>, i: nat, logical: seq<string>, pending: string) {
    i <= |raws| && AbsorbAll(raws[..i]) == Lines(logical, pending)
  }

  lemma AbsorbStep(raws: seq<string>, i: nat, logical: seq<string>, pending: string, line: string)
    requires i < |raws| && Absorbed(raws, i, logical, pending) && line == Extend(pending, raws[i])
    ensures if EvenTail(line) then Absorbed(raws, i + 1, logical + [line], "")
            else line != "" && Absorbed(raws, i + 1, logical, line[..|line| - 1])
  {
    assert raws[..i + 1][..i] == raws[..i];
  }

  lemma AbsorbedAll(raws: seq<string>, logical: seq<string>, pending: string)
    ensures Absorbed(raws, 0, [], "")
    ensures Absorbed(raws, |raws|, logical, pending) ==>
              LogicalLines(raws) == if pending != "" then logical + [pending] else logical
  {
    assert raws[..|raws|] == raws;
  }

  method SplitLogicalLines(text: string) returns (logical: seq<string>)
    ensures logical == LogicalLines(Split(text, '\n'))
  {
    hide *;
    logical := [];
    var pending := "";
    var raws := Split(text, '\n');
    AbsorbedAll(raws, logical, pending);
    for i := 0 to |raws|
      invariant Absorbed(raws, i, logical, pending)
    {
      var line := Extend(pending, raws[i]);
      AbsorbStep(raws, i, logical, pending, line);
      var trailing := CountTrailingSlashes(line);
      if trailing % 2 == 1 {
        pending := line[..|line| - 1];
        continue;
      }
      pending := "";
      logical := logical + [line];
    }
    AbsorbedAll(raws, logical, pending);
    if pending != "" {
      logical := logical + [pending];
    }
  }

  // --- Escapes -----------------------------------------------------------------------------------

  function Byte(b: nat): char
    requires b < 256
  {
    b as char
  }

  // string(rune(v)): UTF-8, with the replacement character for a surrogate.
  function RuneBytes(v: nat): (s: string)
    requires v < 0x11_0000
    ensures s != ""
  {
    if v < 0x80 then [Byte(v)]
    else if v < 0x800 then [Byte(0xC0 + v / 64), Byte(0x80 + v % 64)]
    else if 0xD800 <= v < 0xE000 then [Byte(0xEF), Byte(0xBF), Byte(0xBD)]
    else if v < 0x1_0000 then [Byte(0xE0 + v / 4096), Byte(0x80 + v / 64 % 64), Byte(0x80 + v % 64)]
    else [Byte(0xF0 + v / 262144), Byte(0x80 + v / 4096 % 64), Byte(0x80 + v / 64 % 64), Byte(0x80 + v % 64)]
  }

  // The decoded text and the number of bytes consumed.
  function DecodeEscape(line: string): (r: (string, nat))
    requires line != ""
    ensures 0 < r.1 <= |line|
  {
    if |line| < 2 then ([SLASH], 1)
    else if line[1] == 't' then ("\t", 2)
    else if line[1] == 'n' then ("\n", 2)
    else if line[1] == 'r' then ("\r", 2)
    else if line[1] == 'f' then ([FORM_FEED], 2)
    else if line[1] == 'u' then
      if |line| >= 6 && IsHex4(line[2..6]) then (RuneBytes(Hex4(line[2..6])), 6) else (line[..2], 2)
    else (RuneBytes(line[1] as int), 2)
  }

  function Decode(value: string): string
    decreases |value|
  {
    if value == "" then ""
    else if value[0] == SLASH && 1 < |value| then DecodeEscape(value).0 + Decode(value[DecodeEscape(value).1..])
    else [value[0]] + Decode(value[1..])
  }

  lemma {:induction false} DecodePlain(value: string)
    requires SLASH !in value
    ensures Decode(value) == value
  {
    if value != "" {
      assert value[0] in value;
      DecodePlain(value[1..]);
    }
  }

  // The loop has decoded the first i bytes to out.
  ghost predicate DecodedTo(value: string, i: nat, out: string) {
    i <= |value| && out + Decode(value[i..]) == Decode(value)
  }

  lemma DecodeStep(value: string, i: nat, out: string)
    requires i < |value| && DecodedTo(value, i, out)
    ensures if value[i] == SLASH && i + 1 < |value|
            then DecodedTo(value, i + DecodeEscape(value[i..]).1, out + DecodeEscape(value[i..]).0)
            else DecodedTo(value, i + 1, out + [value[i]])
  {
    hide DecodeEscape;
    assert forall k :: 0 < k <= |value| - i ==> value[i..][k..] == value[i + k..];
  }

  lemma DecodedAll(value: string, out: string)
    ensures DecodedTo(value, 0, "")
    ensures DecodedTo(value, |value|, out) ==> out == Decode(value)
  {
    assert value[0..] == value;
  }

  method DecodeEscapedString(value: string) returns (out: string)
    ensures out == Decode(value)
  {
    if SLASH !in value {
      DecodePlain(value);
      return value;
    }
    hide *;
    out := "";
    var i := 0;
    DecodedAll(value, out);
    while i < |value|
      invariant 0 <= i <= |value| && DecodedTo(value, i, out)
    {
      DecodeStep(value, i, out);
      if value[i] == SLASH && i + 1 < |value| {
        var (decoded, size) := DecodeEscape(value[i..]);
        out := out + decoded;
        i := i + size;
        continue;
      }
      out := out + [value[i]];
      i := i + 1;
    }
    DecodedAll(value, out);
  }

  // --- Key and value -----------------------------------------------------------------------------

  predicate EndsKey(c: char) { c == '=' || c == ':' || c in BLANKS }

  // The decoded key and the rest of the line.
  function ScanKey(line: string): (r: (string, string))
    decreases |line|
  {
    if line == "" then ("", "")
    else if line[0] == SLASH && 1 < |line| then
      var tail := ScanKey(line[DecodeEscape(line).1..]);
      (DecodeEscape(line).0 + tail.0, tail.1)
    else if EndsKey(line[0]) then ("", line)
    else
      var tail := ScanKey(line[1..]);
      ([line[0]] + tail.0, tail.1)
  }

  // What follows the separator: blanks, at most one '=' or ':', blanks.
  function AfterSeparator(rest: string): string {
    var r := TrimLeft(rest, BLANKS);
    if r != "" && (r[0] == '=' || r[0] == ':') then TrimLeft(r[1..], BLANKS) else r
  }

  function KeyAndValue(line: string): (string, string) {
    (ScanKey(line).0, Decode(TrimRight(AfterSeparator(ScanKey(line).1), BLANKS)))
  }

  method SkipBlanks(line: string, start: nat) returns (i: nat)
    requires start <= |line|
    ensures start <= i <= |line| && line[i..] == TrimLeft(line[start..], BLANKS)
  {
    i := start;
    while i < |line| && line[i] in BLANKS
      invariant start <= i <= |line|
      invariant TrimLeft(line[i..], BLANKS) == TrimLeft(line[start..], BLANKS)
    {
      assert line[i..][1..] == line[i + 1..];
      i := i + 1;
    }
  }

  // The loop has read the key up to i.
  ghost predicate ReadTo(line: string, i: nat, key: string) {
    i <= |line| && key + ScanKey(line[i..]).0 == ScanKey(line).0 && ScanKey(line[i..]).1 == ScanKey(line).1
  }

  lemma ReadStep(line: string, i: nat, key: string)
    requires i < |line| && ReadTo(line, i, key)
    ensures if line[i] == SLASH && i + 1 < |line|
            then ReadTo(line, i + DecodeEscape(line[i..]).1, key + DecodeEscape(line[i..]).0)
            else if EndsKey(line[i]) then ScanKey(line) == (key, line[i..])
            else ReadTo(line, i + 1, key + [line[i]])
  {
    hide DecodeEscape, EndsKey;
    assert forall k :: 0 < k <= |line| - i ==> line[i..][k..] == line[i + k..];
    assert key + "" == key;
  }

  lemma ReadAll(line: string, key: string)
    ensures ReadTo(line, 0, "")
    ensures ReadTo(line, |line|, key) ==> ScanKey(line) == (key, "")
  {
    assert ScanKey("") == ("", "");
    hide ScanKey;
    assert line[0..] == line && "" + ScanKey(line).0 == ScanKey(line).0;
    assert line[|line|..] == "" && key + "" == key;
  }

  method ReadKey(line: string) returns (key: string, i: nat)
    ensures i <= |line| && ScanKey(line) == (key, line[i..])
  {
    hide *;
    key, i := "", 0;
    ReadAll(line, key);
    while i < |line|
      invariant i <= |line| && ReadTo(line, i, key)
    {
      ReadStep(line, i, key);
      var c := line[i];
      if c == SLASH && i + 1 < |line| {
        var (decoded, size) := DecodeEscape(line[i..]);
        key := key + decoded;
        i := i + size;
        continue;
      }
      if EndsKey(c) { return; }
      key := key + [c];
      i := i + 1;
    }
    ReadAll(line, key);
  }

  method SplitPropertyLine(line: string) returns (key: string, value: string, ok: bool)
    ensures ok && (key, value) == KeyAndValue(line)
  {
    hide ScanKey, Decode, TrimLeft, TrimRight;
    var i;
    key, i := ReadKey(line);
    i := SkipBlanks(line, i);
    if i < |line| && (line[i] == '=' || line[i] == ':') {
      assert line[i..][1..] == line[i + 1..];
      i := SkipBlanks(line, i + 1);
    }
    value := DecodeEscapedString(TrimRight(line[i..], BLANKS));
    return key, value, true;
  }

  // --- The map -----------------------------------------------------------------------------------

  function ParseLine(line: string): Option<(string, string)> {
    var trimmed := TrimLeft(line, BLANKS);
    if trimmed == "" || trimmed[0] == '#' || trimmed[0] == '!' || KeyAndValue(trimmed).0 == "" then None
    else Some(KeyAndValue(trimmed))
  }

  function ParseLines(lines: seq<string>): map<string, string> {
    if lines == [] then map[]
    else
      var before := ParseLines(lines[..|lines| - 1]);
      match ParseLine(lines[|lines| - 1])
      case None => before
      case Some(entry) => before[entry.0 := entry.1]
  }

  function Parse(text: string): map<string, string> { ParseLines(LogicalLines(Split(text, '\n'))) }

  lemma ParseLinesStep(lines: seq<string>, i: nat)
    requires i < |lines|
    ensures ParseLines(lines[..i + 1]) ==
            match ParseLine(lines[i])
            case None => ParseLines(lines[..i])
            case Some(entry) => ParseLines(lines[..i])[entry.0 := entry.1]
  {
    hide ParseLine;
    assert lines[..i + 1][..i] == lines[..i];
  }

  method ParseJavaProperties(text: string) returns (result: map<string, string>)
    ensures result == Parse(text)
  {
    result := map[];
    var lines := SplitLogicalLines(text);
    assert lines[..|lines|] == lines;
    assert ParseLines(lines[..0]) == map[];
    hide TrimLeft, KeyAndValue, ParseLines;
    for i := 0 to |lines|
      invariant result == ParseLines(lines[..i])
    {
      ParseLinesStep(lines, i);
      var trimmed := TrimLeft(lines[i], BLANKS);
      if trimmed == "" || trimmed[0] == '#' || trimmed[0] == '!' { continue; }
      var key, value, ok := SplitPropertyLine(trimmed);
      if !ok || key == "" { continue; }
      result := result[key := value];
    }
  }

  // --- Continuation lines ------------------------------------------------------------------------

  // Behind a text with an even tail, a text keeps its own parity.
  lemma {:induction false} TailParity(a: string, b: string)
    requires EvenTail(a)
    ensures EvenTail(a + b) <==> EvenTail(b)
  {
    if b == "" {
      assert a + b == a;
    } else if b[|b| - 1] == SLASH {
      assert (a + b)[..|a + b| - 1] == a + b[..|b| - 1];
      TailParity(a, b[..|b| - 1]);
    }
  }

  // What a physical line adds to the pending text.
  function Own(pending: string, physical: string): string {
    var raw := TrimRight(physical, RETURNS);
    if pending == "" then raw else TrimLeft(raw, BLANKS)
  }

  /**
   Whatever chain of continuations led to it, no logical line ends in an unpaired backslash,
   and a physical line continues exactly when its own backslashes are odd in number.
   */
  lemma {:induction false} LogicalLinesEndEven(raws: seq<string>)
    ensures forall line :: line in LogicalLines(raws) ==> EvenTail(line)
    ensures forall line :: line in AbsorbAll(raws).logical ==> EvenTail(line)
    ensures EvenTail(AbsorbAll(raws).pending)
    ensures var pending := AbsorbAll(raws).pending;
            forall next :: EvenTail(Extend(pending, next)) <==> EvenTail(Own(pending, next))
  {
    hide TrimLeft, TrimRight, TrailingSlashes, EvenTail;
    OddTail("");
    if raws != [] {
      LogicalLinesEndEven(raws[..|raws| - 1]);
      OddTail(Extend(AbsorbAll(raws[..|raws| - 1]).pending, raws[|raws| - 1]));
    }
    var pending := AbsorbAll(raws).pending;
    forall next ensures EvenTail(Extend(pending, next)) <==> EvenTail(Own(pending, next)) {
      TailParity(pending, Own(pending, next));
    }
  }

  lemma OddTail(line: string)
    ensures EvenTail("")
    ensures !EvenTail(line) ==> line != "" && line[|line| - 1] == SLASH && EvenTail(line[..|line| - 1])
  {
  }

  lemma {:induction false} TrimLeftSkips(blanks: string, s: string)
    requires forall c :: c in blanks ==> c in BLANKS
    requires s != "" ==> s[0] !in BLANKS
    ensures TrimLeft(blanks + s, BLANKS) == s
  {
    if blanks == "" {
      assert blanks + s == s;
    } else {
      assert blanks[0] in blanks && (blanks + s)[1..] == blanks[1..] + s;
      TrimLeftSkips(blanks[1..], s);
    }
  }

  lemma {:induction false} TrimLeftCat(a: string, b: string)
    requires b != "" ==> b[0] !in BLANKS
    ensures TrimLeft(a + b, BLANKS) == TrimLeft(a, BLANKS) + b
    ensures TrailingSlashes(TrimLeft(a, BLANKS)) == TrailingSlashes(a)
  {
    if a == "" {
      assert a + b == b;
    } else if a[0] in BLANKS {
      assert (a + b)[1..] == a[1..] + b;
      TrimLeftCat(a[1..], b);
      BlankHasNoSlash(a);
    }
  }

  lemma {:induction false} BlankHasNoSlash(a: string)
    requires a != "" && a[0] in BLANKS
    ensures TrailingSlashes(a[1..]) == TrailingSlashes(a)
  {
    if |a| > 1 {
      assert a[..|a| - 1][1..] == a[1..][..|a| - 2];
      BlankHasNoSlash(a[..|a| - 1]);
    }
  }

  lemma {:induction false} TrimRightCat(a: string, b: string, cut: set<char>)
    requires a == "" || a[|a| - 1] !in cut || TrimRight(b, cut) != ""
    ensures TrimRight(a + b, cut) == a + TrimRight(b, cut)
  {
    if b == "" {
      assert a + b == a;
    } else if b[|b| - 1] in cut {
      assert (a + b)[..|a + b| - 1] == a + b[..|b| - 1];
      TrimRightCat(a, b[..|b| - 1], cut);
    }
  }

  // What a fold may stand between: no blank is skipped behind it, and no line end trimmed before it.
  predicate Foldable(a: string, b: string) {
    (b != "" ==> b[0] !in BLANKS) && (a != "" && a[|a| - 1] == '\r' ==> TrimRight(b, RETURNS) != "")
  }

  // The logical line up to a fold behind a.
  function Folded(p: string, a: string): string { p + if p != "" then TrimLeft(a, BLANKS) else a }

  lemma ExtendCat(p: string, a: string, b: string)
    requires Foldable(a, b)
    ensures Extend(p, a + b) == Folded(p, a) + TrimRight(b, RETURNS)
  {
    hide TrimLeft, TrimRight;
    var kept := TrimRight(b, RETURNS);
    TrimRightCat(a, b, RETURNS);
    TrimLeftCat(a, kept);
    assert p + (TrimLeft(a, BLANKS) + kept) == p + TrimLeft(a, BLANKS) + kept;
    assert p + (a + kept) == p + a + kept;
  }

  lemma ExtendIndented(q: string, indent: string, b: string)
    requires q != "" && (forall c :: c in indent ==> c in BLANKS) && (b != "" ==> b[0] !in BLANKS)
    ensures Extend(q, indent + b) == q + TrimRight(b, RETURNS)
  {
    hide TrimLeft, TrimRight;
    assert indent != "" ==> indent[|indent| - 1] in indent;
    TrimRightCat(indent, b, RETURNS);
    TrimLeftSkips(indent, TrimRight(b, RETURNS));
  }

  lemma FoldedIsEven(p: string, a: string)
    requires EvenTail(p) && EvenTail(a)
    ensures EvenTail(Folded(p, a)) && !EvenTail(Folded(p, a) + [SLASH])
    ensures p != "" || a != "" ==> Folded(p, a) != ""
  {
    TrimLeftCat(a, "");
    var own := if p != "" then TrimLeft(a, BLANKS) else a;
    assert TrailingSlashes(own) == TrailingSlashes(a);
    TailParity(p, own);
    TailParity(Folded(p, a), [SLASH]);
    assert TrailingSlashes([SLASH]) == 1;
    hide TrimLeft, TrailingSlashes;
  }

  // A physical line folded before b, the continuation indented.
  lemma AbsorbFolded(s: Lines, a: string, indent: string, b: string)
    requires EvenTail(s.pending) && EvenTail(a) && Foldable(a, b) && (s.pending != "" || a != "")
    requires forall c :: c in indent ==> c in BLANKS
    ensures Absorb(Absorb(s, a + [SLASH]), indent + b) == Absorb(s, a + b)
  {
    hide Extend, EvenTail, Folded, TrimRight;
    var q := Folded(s.pending, a);
    FoldedIsEven(s.pending, a);
    NothingToTrim(SLASH);
    ExtendCat(s.pending, a, [SLASH]);
    ExtendCat(s.pending, a, b);
    ExtendIndented(q, indent, b);
    assert (q + [SLASH])[..|q + [SLASH]| - 1] == q;
    assert Absorb(s, a + [SLASH]) == Lines(s.logical, q);
  }

  lemma NothingToTrim(c: char)
    requires c !in RETURNS
    ensures TrimRight([c], RETURNS) == [c]
  {
  }

  // --- Lines that differ in leading blanks only ----------------------------------------------------

  ghost predicate Alike(s: Lines, t: Lines) {
    && TrimLeft(s.pending, BLANKS) == TrimLeft(t.pending, BLANKS) && |s.logical| == |t.logical|
    && forall i :: 0 <= i < |s.logical| ==> TrimLeft(s.logical[i], BLANKS) == TrimLeft(t.logical[i], BLANKS)
  }

  lemma ExtendTrims(p: string, physical: string)
    ensures TrimLeft(Extend(p, physical), BLANKS) ==
            TrimLeft(p, BLANKS) + TrimLeft(TrimRight(physical, RETURNS), BLANKS)
  {
    var raw := TrimRight(physical, RETURNS);
    if p == "" {
      assert "" + raw == raw && TrimLeft("", BLANKS) == "";
      assert "" + TrimLeft(raw, BLANKS) == TrimLeft(raw, BLANKS);
    } else {
      hide TrimLeft, TrimRight;
      TrimLeftCat(p, TrimLeft(raw, BLANKS));
    }
  }

  // The parity and the text before the last backslash do not depend on leading blanks.
  lemma TrimsAlike(l: string, m: string)
    requires TrimLeft(l, BLANKS) == TrimLeft(m, BLANKS)
    ensures EvenTail(l) <==> EvenTail(m)
    ensures !EvenTail(l) ==> TrimLeft(l[..|l| - 1], BLANKS) == TrimLeft(m[..|m| - 1], BLANKS)
  {
    hide TrimLeft;
    BeforeSlash(l);
    BeforeSlash(m);
  }

  lemma BeforeSlash(l: string)
    ensures TrailingSlashes(TrimLeft(l, BLANKS)) == TrailingSlashes(l)
    ensures !EvenTail(l) ==>
              l != "" && TrimLeft(l, BLANKS) != ""
              && TrimLeft(l[..|l| - 1], BLANKS) == TrimLeft(l, BLANKS)[..|TrimLeft(l, BLANKS)| - 1]
  {
    TrimLeftCat(l, "");
    OddTail(l);
    if !EvenTail(l) {
      var x := l[..|l| - 1];
      assert l == x + [SLASH];
      hide TrimLeft, TrailingSlashes;
      TrimLeftCat(x, [SLASH]);
      CatSlices(TrimLeft(x, BLANKS), [SLASH]);
    }
  }

  lemma AbsorbLine(s: Lines, t: Lines, x: string, y: string)
    requires Alike(s, t) && TrimLeft(Extend(s.pending, x), BLANKS) == TrimLeft(Extend(t.pending, y), BLANKS)
    ensures Alike(Absorb(s, x), Absorb(t, y))
  {
    assert TrimLeft("", BLANKS) == "";
    hide Extend, TrimLeft, EvenTail;
    TrimsAlike(Extend(s.pending, x), Extend(t.pending, y));
  }

  lemma {:induction false} AbsorbCat(x: seq<string>, y: seq<string>, z: seq<string>)
    requires Alike(AbsorbAll(x), AbsorbAll(y))
    ensures Alike(AbsorbAll(x + z), AbsorbAll(y + z))
  {
    hide Absorb, Alike, Extend, TrimLeft, TrimRight;
    if z == [] {
      assert x + z == x && y + z == y;
    } else {
      var init, last := z[..|z| - 1], z[|z| - 1];
      AbsorbCat(x, y, init);
      assert (x + z)[..|x + z| - 1] == x + init && (y + z)[..|y + z| - 1] == y + init;
      PendingAlike(AbsorbAll(x + init), AbsorbAll(y + init));
      ExtendTrims(AbsorbAll(x + init).pending, last);
      ExtendTrims(AbsorbAll(y + init).pending, last);
      AbsorbLine(AbsorbAll(x + init), AbsorbAll(y + init), last, last);
    }
  }

  lemma PendingAlike(s: Lines, t: Lines)
    requires Alike(s, t)
    ensures TrimLeft(s.pending, BLANKS) == TrimLeft(t.pending, BLANKS)
  {
  }

  lemma {:induction false} ParsesAlike(a: seq<string>, b: seq<string>)
    requires |a| == |b| && forall i :: 0 <= i < |a| ==> TrimLeft(a[i], BLANKS) == TrimLeft(b[i], BLANKS)
    ensures ParseLines(a) == ParseLines(b)
  {
    if a != [] {
      hide KeyAndValue, TrimLeft;
      ParsesAlike(a[..|a| - 1], b[..|b| - 1]);
    }
  }

  // A pending text of blanks is the only line one side can have and the other lacks.
  lemma FinishedAlike(x: seq<string>, y: seq<string>)
    requires Alike(AbsorbAll(x), AbsorbAll(y))
    ensures ParseLines(LogicalLines(x)) == ParseLines(LogicalLines(y))
  {
    hide AbsorbAll;
    var s, t := AbsorbAll(x), AbsorbAll(y);
    ParsesAlike(s.logical, t.logical);
    PendingParses(s);
    PendingParses(t);
    assert ParseLine(s.pending) == ParseLine(t.pending) by {
      hide KeyAndValue, TrimLeft;
    }
  }

  lemma PendingParses(s: Lines)
    ensures ParseLines(if s.pending != "" then s.logical + [s.pending] else s.logical) ==
            match ParseLine(s.pending)
            case None => ParseLines(s.logical)
            case Some(entry) => ParseLines(s.logical)[entry.0 := entry.1]
  {
    assert ParseLine("") == None;
    hide ParseLine;
    assert (s.logical + [s.pending])[..|s.logical|] == s.logical;
  }

  lemma FoldAlike(s: Lines, a: string, indent: string, b: string)
    requires EvenTail(s.pending) && EvenTail(a) && Foldable(a, b) && forall c :: c in indent ==> c in BLANKS
    ensures Alike(Absorb(Absorb(s, a + [SLASH]), indent + b), Absorb(s, a + b))
  {
    if s.pending != "" || a != "" {
      hide Absorb, EvenTail;
      AbsorbFolded(s, a, indent, b);
    } else {
      LoneSlash(s);
      assert a + [SLASH] == [SLASH] && a + b == b;
      hide Absorb, EvenTail, TrimLeft, TrimRight, Extend, Alike;
      LoneFold(s, indent, b);
    }
  }

  lemma LoneFold(s: Lines, indent: string, b: string)
    requires s.pending == "" && Foldable("", b) && forall c :: c in indent ==> c in BLANKS
    ensures Alike(Absorb(s, indent + b), Absorb(s, b))
  {
    hide TrimLeft, TrimRight, Absorb, Extend, EvenTail;
    var kept := TrimRight(b, RETURNS);
    assert indent != "" ==> indent[|indent| - 1] in indent;
    TrimRightCat(indent, b, RETURNS);
    ExtendTrims("", indent + b);
    ExtendTrims("", b);
    TrimLeftSkips(indent, kept);
    TrimLeftSkips("", kept);
    assert "" + kept == kept;
    AbsorbLine(s, s, indent + b, b);
  }

  // With nothing pending a lone backslash is as good as no line.
  lemma LoneSlash(s: Lines)
    requires s.pending == ""
    ensures Absorb(s, [SLASH]) == s
  {
    NothingToTrim(SLASH);
    assert Extend("", [SLASH]) == [SLASH] && [SLASH][..0] == "" && TrailingSlashes([SLASH]) == 1;
  }

  /**
   Folding a line is invisible: a backslash, a line end and any indentation may be put
   anywhere behind an even run of backslashes and before a character that is not blank.
   */
  lemma FoldingIsInvisible(before: seq<string>, a: string, indent: string, b: string, after: seq<string>)
    requires EvenTail(a) && Foldable(a, b) && forall c :: c in indent ==> c in BLANKS
    requires Without(before + [a + [SLASH], indent + b] + after, '\n') && Without(before + [a + b] + after, '\n')
    ensures Parse(Join(before + [a + [SLASH], indent + b] + after, '\n')) == Parse(Join(before + [a + b] + after, '\n'))
  {
    hide Absorb, EvenTail, Split, Join, Without, Alike, ParseLines, LogicalLines;
    var one, two := before + [a + b], before + [a + [SLASH], indent + b];
    LogicalLinesEndEven(before);
    FoldAlike(AbsorbAll(before), a, indent, b);
    assert one[..|before|] == before && two[..|before| + 1][..|before|] == before;
    assert two[..|before| + 1] == before + [a + [SLASH]];
    AbsorbCat(two, one, after);
    FinishedAlike(two + after, one + after);
    SplitJoin(one + after, '\n');
    SplitJoin(two + after, '\n');
  }
}
