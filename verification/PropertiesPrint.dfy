/**
 Printing in the store format of java.util.Properties and reading it back. Java strings are
 UTF-16, the program's are UTF-8; the texts printed here are sequences of Unicode characters.
 */
module PropertiesPrint {
  import opened Basics
  import opened PropertiesText

  const SPACE: Unit := 0x20

  // --- Printing ----------------------------------------------------------------------------------

  type Unit = u: int | 0 <= u < 0x1_0000

  function UnitsOf(c: char): seq<Unit> {
    var v := c as int;
    if v < 0x1_0000 then [v] else [0xD800 + (v - 0x1_0000) / 1024, 0xDC00 + (v - 0x1_0000) % 1024]
  }

  // The UTF-16 code units of a text.
  function Units(s: string): seq<Unit> { if s == "" then [] else UnitsOf(s[0]) + Units(s[1..]) }

  function HexDigit(d: nat): char
    requires d < 16
  {
    if d < 10 then '0' + d as char else 'A' + (d - 10) as char
  }

  function UnicodeEscape(u: Unit): string {
    "\\u" + [HexDigit(u / 4096), HexDigit(u / 256 % 16), HexDigit(u / 16 % 16), HexDigit(u % 16)]
  }

  // A space is escaped in a key, and at the start of a value.
  function EscapeUnit(u: Unit, escapeSpace: bool): (s: string)
    ensures s != ""
  {
    if u == SPACE then (if escapeSpace then "\\ " else " ")
    else if u == '\t' as int then "\\t"
    else if u == '\n' as int then "\\n"
    else if u == '\r' as int then "\\r"
    else if u == FORM_FEED as int then "\\f"
    else if u == SLASH as int || u == '=' as int || u == ':' as int || u == '#' as int || u == '!' as int then
      [SLASH, u as char]
    else if u < 0x20 || u > 0x7E then UnicodeEscape(u)
    else [u as char]
  }

  function EscapeAll(us: seq<Unit>, escapeSpace: bool): string {
    if us == [] then "" else EscapeUnit(us[0], escapeSpace) + EscapeAll(us[1..], escapeSpace)
  }

  function EscapeValue(us: seq<Unit>): string {
    if us == [] then "" else EscapeUnit(us[0], true) + EscapeAll(us[1..], false)
  }

  // Java's own form leaves a space at the end of a value bare; the guarded form writes \u0020.
  function PrintValue(us: seq<Unit>, guarded: bool): string {
    if guarded && us != [] && us[|us| - 1] == SPACE then EscapeValue(us[..|us| - 1]) + UnicodeEscape(SPACE)
    else EscapeValue(us)
  }

  datatype Property = Property(key: string, value: string)

  function PrintLine(p: Property, guarded: bool): string {
    EscapeAll(Units(p.key), true) + ("=" + PrintValue(Units(p.value), guarded))
  }

  function PrintLines(ps: seq<Property>, guarded: bool): seq<string> {
    if ps == [] then [] else PrintLines(ps[..|ps| - 1], guarded) + [PrintLine(ps[|ps| - 1], guarded)]
  }

  function Print(ps: seq<Property>, guarded: bool): string { Join(PrintLines(ps, guarded), '\n') }

  // --- What the reader should find ---------------------------------------------------------------

  function Utf8(s: string): string { if s == "" then "" else RuneBytes(s[0] as int) + Utf8(s[1..]) }

  function Stored(ps: seq<Property>): map<string, string> {
    if ps == [] then map[] else Stored(ps[..|ps| - 1])[Utf8(ps[|ps| - 1].key) := Utf8(ps[|ps| - 1].value)]
  }

  // The characters of the basic multilingual plane.
  predicate InBmp(s: string) { forall i :: 0 <= i < |s| ==> s[i] as int < 0x1_0000 }

  // --- Escapes decode ----------------------------------------------------------------------------

  // What the reader makes of a sequence of code units, one at a time.
  function Reread(us: seq<Unit>): string { if us == [] then "" else RuneBytes(us[0]) + Reread(us[1..]) }

  lemma HexDigitValue(d: nat)
    requires d < 16
    ensures IsHex(HexDigit(d)) && HexValue(HexDigit(d)) == d
  {
  }

  lemma Nibbles(u: Unit)
    ensures u / 4096 < 16 && ((u / 4096 * 16 + u / 256 % 16) * 16 + u / 16 % 16) * 16 + u % 16 == u
  {
    assert u / 256 == u / 4096 * 16 + u / 256 % 16;
    assert u / 16 == u / 256 * 16 + u / 16 % 16;
  }

  lemma UnicodeEscapeDecodes(u: Unit, rest: string)
    ensures UnicodeEscape(u)[0] == SLASH && |UnicodeEscape(u)| == 6
    ensures DecodeEscape(UnicodeEscape(u) + rest) == (RuneBytes(u), 6)
  {
    hide RuneBytes, HexDigit, HexValue, IsHex;
    var s := UnicodeEscape(u) + rest;
    HexDigitValue(u / 4096);
    HexDigitValue(u / 256 % 16);
    HexDigitValue(u / 16 % 16);
    HexDigitValue(u % 16);
    assert s[2..6] == [HexDigit(u / 4096), HexDigit(u / 256 % 16), HexDigit(u / 16 % 16), HexDigit(u % 16)];
    Nibbles(u);
  }

  // Each escape is one the reader undoes, whatever follows it.
  lemma UnitDecodes(u: Unit, escapeSpace: bool, rest: string)
    ensures var e := EscapeUnit(u, escapeSpace);
            if e[0] == SLASH then |e| > 1 && DecodeEscape(e + rest) == (RuneBytes(u), |e|)
            else
              && e == RuneBytes(u) && |e| == 1 && e[0] != '#' && e[0] != '!'
              && (EndsKey(e[0]) ==> u == SPACE && !escapeSpace)
  {
    if u < 0x20 || u > 0x7E {
      UnicodeEscapeDecodes(u, rest);
    }
  }

  lemma {:induction false} EscapedDecodes(us: seq<Unit>, escapeSpace: bool, tail: string)
    ensures Decode(EscapeAll(us, escapeSpace) + tail) == Reread(us) + Decode(tail)
    decreases |us|
  {
    hide EscapeUnit, RuneBytes, DecodeEscape;
    if us == [] {
      assert "" + tail == tail && "" + Decode(tail) == Decode(tail);
    } else {
      EscapedDecodes(us[1..], escapeSpace, tail);
      UnitThenDecodes(us[0], escapeSpace, EscapeAll(us[1..], escapeSpace) + tail);
      assert EscapeAll(us, escapeSpace) + tail ==
             EscapeUnit(us[0], escapeSpace) + (EscapeAll(us[1..], escapeSpace) + tail);
    }
  }

  lemma UnitThenDecodes(u: Unit, escapeSpace: bool, rest: string)
    ensures Decode(EscapeUnit(u, escapeSpace) + rest) == RuneBytes(u) + Decode(rest)
  {
    UnitDecodes(u, escapeSpace, rest);
    hide EscapeUnit, RuneBytes, DecodeEscape;
    var e := EscapeUnit(u, escapeSpace);
    assert (e + rest)[|e|..] == rest;
  }

  lemma UnitThenKey(u: Unit, rest: string)
    ensures ScanKey(EscapeUnit(u, true) + rest).0 == RuneBytes(u) + ScanKey(rest).0
    ensures ScanKey(EscapeUnit(u, true) + rest).1 == ScanKey(rest).1
  {
    UnitDecodes(u, true, rest);
    hide EscapeUnit, RuneBytes, DecodeEscape;
    var e := EscapeUnit(u, true);
    assert (e + rest)[|e|..] == rest;
  }

  lemma {:induction false} KeyDecodes(us: seq<Unit>, rest: string)
    ensures ScanKey(EscapeAll(us, true) + ("=" + rest)).0 == Reread(us)
    ensures ScanKey(EscapeAll(us, true) + ("=" + rest)).1 == "=" + rest
  {
    hide EscapeUnit, RuneBytes, DecodeEscape;
    if us == [] {
      assert "" + ("=" + rest) == "=" + rest;
    } else {
      KeyDecodes(us[1..], rest);
      UnitThenKey(us[0], EscapeAll(us[1..], true) + ("=" + rest));
      assert EscapeAll(us, true) + ("=" + rest) == EscapeUnit(us[0], true) + (EscapeAll(us[1..], true) + ("=" + rest));
    }
  }

  lemma ValueDecodes(us: seq<Unit>, tail: string)
    ensures Decode(EscapeValue(us) + tail) == Reread(us) + Decode(tail)
  {
    hide EscapeAll, EscapeUnit, RuneBytes, DecodeEscape, Decode;
    if us == [] {
      assert "" + tail == tail && "" + Decode(tail) == Decode(tail);
    } else {
      EscapedDecodes(us[1..], false, tail);
      UnitThenDecodes(us[0], true, EscapeAll(us[1..], false) + tail);
      CatAssociates(EscapeUnit(us[0], true), EscapeAll(us[1..], false), tail);
      CatAssociates(RuneBytes(us[0]), Reread(us[1..]), Decode(tail));
      hide Reread;
    }
  }

  lemma WholeValueDecodes(us: seq<Unit>)
    ensures Decode(EscapeValue(us)) == Reread(us)
  {
    assert Decode("") == "";
    hide *;
    ValueDecodes(us, "");
    assert EscapeValue(us) + "" == EscapeValue(us) && Reread(us) + "" == Reread(us);
  }

  // --- Lines and trimming ------------------------------------------------------------------------

  ghost predicate Clean(s: string) { '\n' !in s && '\r' !in s && EvenTail(s) }

  lemma CleanCat(a: string, b: string)
    requires Clean(a) && Clean(b)
    ensures Clean(a + b)
  {
    TailParity(a, b);
  }

  lemma UnitClean(u: Unit, escapeSpace: bool)
    ensures Clean(EscapeUnit(u, escapeSpace))
    ensures var e := EscapeUnit(u, escapeSpace); e[|e| - 1] in BLANKS ==> u == SPACE
    ensures !escapeSpace && u == SPACE ==> EscapeUnit(u, escapeSpace) == " "
  {
    var e := EscapeUnit(u, escapeSpace);
    assert TrailingSlashes(e[..|e| - 1]) <= |e| - 1;
    if u == SLASH as int {
      assert e == [SLASH, SLASH] && e[..1] == [SLASH] && e[..1][..0] == "";
      assert TrailingSlashes(e[..1]) == 1;
    }
  }

  lemma {:induction false} EscapeAllClean(us: seq<Unit>, escapeSpace: bool)
    ensures Clean(EscapeAll(us, escapeSpace))
  {
    assert Clean("");
    hide EscapeUnit, Clean;
    if us != [] {
      UnitClean(us[0], escapeSpace);
      EscapeAllClean(us[1..], escapeSpace);
      CleanCat(EscapeUnit(us[0], escapeSpace), EscapeAll(us[1..], escapeSpace));
    }
  }

  lemma ValueClean(us: seq<Unit>)
    ensures Clean(EscapeValue(us))
    ensures EscapeValue(us) != "" ==> EscapeValue(us)[0] !in BLANKS
  {
    if us != [] {
      UnitClean(us[0], true);
      UnitDecodes(us[0], true, "");
      EscapeAllClean(us[1..], false);
      CleanCat(EscapeUnit(us[0], true), EscapeAll(us[1..], false));
    }
    hide EscapeUnit, EscapeAll;
  }

  // The value as printed, and its two ends.
  lemma PrintedValueClean(us: seq<Unit>, guarded: bool)
    ensures Clean("=" + PrintValue(us, guarded))
    ensures PrintValue(us, guarded) != "" ==> PrintValue(us, guarded)[0] !in BLANKS
  {
    assert TrailingSlashes("=") == 0;
    ValueClean(us);
    if us != [] {
      ValueClean(us[..|us| - 1]);
    }
    assert UnicodeEscape(SPACE) == "\\u0020";
    assert TrailingSlashes("\\u0020") == 0;
    hide EscapeValue, UnicodeEscape, TrailingSlashes;
    if guarded && us != [] && us[|us| - 1] == SPACE {
      CleanCat(EscapeValue(us[..|us| - 1]), UnicodeEscape(SPACE));
    }
    CleanCat("=", PrintValue(us, guarded));
  }

  // What the reader makes of a printed value.
  function Loaded(us: seq<Unit>, guarded: bool): string { Decode(TrimRight(PrintValue(us, guarded), BLANKS)) }

  /** A printed line is read as its own key and its own value; one with an empty key is skipped. */
  lemma LineParses(p: Property, guarded: bool)
    ensures Clean(PrintLine(p, guarded))
    ensures ParseLine(PrintLine(p, guarded)) ==
            if p.key == "" then None else Some((Reread(Units(p.key)), Loaded(Units(p.value), guarded)))
  {
    hide EscapeAll, PrintValue, ScanKey, Decode, AfterSeparator, TrimRight, Reread, Units, Clean;
    var ku, pv := Units(p.key), PrintValue(Units(p.value), guarded);
    UnitsEmpty(p.key);
    EscapeAllClean(ku, true);
    PrintedValueClean(Units(p.value), guarded);
    CleanCat(EscapeAll(ku, true), "=" + pv);
    KeyDecodes(ku, pv);
    SeparatorConsumed(pv);
    LineStart(ku, "=" + pv);
  }

  lemma UnitsEmpty(s: string)
    ensures s == "" <==> Units(s) == []
    ensures s == "" <==> Reread(Units(s)) == ""
  {
  }

  lemma SeparatorConsumed(pv: string)
    requires pv != "" ==> pv[0] !in BLANKS
    ensures AfterSeparator("=" + pv) == pv
  {
    assert ("=" + pv)[1..] == pv;
  }

  lemma LineStart(ku: seq<Unit>, rest: string)
    requires rest != "" && rest[0] == '='
    ensures var line := EscapeAll(ku, true) + rest;
            line[0] !in BLANKS && line[0] != '#' && line[0] != '!'
  {
    if ku != [] {
      UnitDecodes(ku[0], true, "");
    }
  }

  // --- A value with a space at its end -------------------------------------------------------------

  lemma {:induction false} EscapeAllLast(us: seq<Unit>, last: Unit)
    ensures EscapeAll(us + [last], false) == EscapeAll(us, false) + EscapeUnit(last, false)
  {
    hide EscapeUnit;
    if us == [] {
      assert us + [last] == [last] && EscapeAll([], false) == "";
    } else {
      assert (us + [last])[1..] == us[1..] + [last];
      EscapeAllLast(us[1..], last);
    }
  }

  lemma EscapeValueLast(us: seq<Unit>)
    requires |us| > 1
    ensures EscapeValue(us) == EscapeValue(us[..|us| - 1]) + EscapeUnit(us[|us| - 1], false)
  {
    hide EscapeUnit;
    var init, last := us[..|us| - 1], us[|us| - 1];
    EscapeAllLast(init[1..], last);
    assert us[1..] == init[1..] + [last];
  }

  // Trimming stops at a last unit other than a space.
  lemma ValueEnd(us: seq<Unit>)
    requires us != []
    ensures us[|us| - 1] != SPACE ==> TrimRight(EscapeValue(us), BLANKS) == EscapeValue(us)
    ensures us[|us| - 1] == SPACE ==>
              TrimRight(EscapeValue(us), BLANKS) ==
              if |us| == 1 then [SLASH] else TrimRight(EscapeValue(us[..|us| - 1]), BLANKS)
  {
    var last := us[|us| - 1];
    if |us| == 1 {
      UnitClean(last, true);
      assert EscapeAll(us[1..], false) == "";
      assert EscapeValue(us) == EscapeUnit(last, true) + "" == EscapeUnit(last, true);
      if last == SPACE {
        assert "\\ "[..1] == [SLASH];
        assert TrimRight([SLASH], BLANKS) == [SLASH];
      }
    } else {
      UnitClean(last, false);
      EscapeValueLast(us);
      var init := EscapeValue(us[..|us| - 1]);
      if last == SPACE {
        assert (init + " ")[..|init|] == init;
      }
    }
  }

  // What is left of a value that ends in a space is shorter, or a lone backslash.
  lemma {:induction false} TrimmedValue(us: seq<Unit>)
    requires us != [] && us[|us| - 1] == SPACE
    ensures (TrimRight(EscapeValue(us), BLANKS) == [SLASH] && us[0] == SPACE)
         || exists k :: 0 < k < |us| && TrimRight(EscapeValue(us), BLANKS) == EscapeValue(us[..k])
  {
    hide EscapeValue, TrimRight;
    ValueEnd(us);
    if |us| > 1 {
      var init := us[..|us| - 1];
      ValueEnd(init);
      if init[|init| - 1] == SPACE {
        TrimmedValue(init);
        if TrimRight(EscapeValue(init), BLANKS) != [SLASH] || us[0] != SPACE {
          var k :| 0 < k < |init| && TrimRight(EscapeValue(init), BLANKS) == EscapeValue(init[..k]);
          assert init[..k] == us[..k];
        }
      }
    }
  }

  // --- UTF-8 and UTF-16 --------------------------------------------------------------------------

  // What a decoder of UTF-8 computes.
  function RuneLength(first: char): nat {
    var b := first as int;
    if b < 0xC0 then 1 else if b < 0xE0 then 2 else if b < 0xF0 then 3 else 4
  }

  function RuneOf(a: string): int
    requires a != "" && |a| == RuneLength(a[0])
  {
    if |a| == 1 then a[0] as int
    else if |a| == 2 then (a[0] as int - 0xC0) * 64 + (a[1] as int - 0x80)
    else if |a| == 3 then ((a[0] as int - 0xE0) * 64 + (a[1] as int - 0x80)) * 64 + (a[2] as int - 0x80)
    else (((a[0] as int - 0xF0) * 64 + (a[1] as int - 0x80)) * 64 + (a[2] as int - 0x80)) * 64 + (a[3] as int - 0x80)
  }

  lemma RuneDecodes(c: char)
    ensures var a := RuneBytes(c as int); |a| == RuneLength(a[0]) && RuneOf(a) == c as int
  {
    var v := c as int;
    assert v / 64 == v / 4096 * 64 + v / 64 % 64;
    assert v / 4096 == v / 262144 * 64 + v / 4096 % 64;
  }

  // The first byte tells how long a character is, so characters can be told apart.
  lemma RunesSelfDelimiting(c: char, d: char, x: string, y: string)
    requires RuneBytes(c as int) + x == RuneBytes(d as int) + y
    ensures c == d && x == y
  {
    hide RuneBytes, RuneOf, RuneLength;
    var a, b := RuneBytes(c as int), RuneBytes(d as int);
    RuneDecodes(c);
    RuneDecodes(d);
    assert (a + x)[0] == a[0] && (b + y)[0] == b[0];
    assert (a + x)[..|a|] == a && (b + y)[..|b|] == b;
    assert (a + x)[|a|..] == x && (b + y)[|b|..] == y;
  }

  lemma {:induction false} Utf8Injective(s: string, t: string)
    requires Utf8(s) == Utf8(t)
    ensures s == t
  {
    hide RuneBytes;
    if s != "" && t != "" {
      RunesSelfDelimiting(s[0], t[0], Utf8(s[1..]), Utf8(t[1..]));
      Utf8Injective(s[1..], t[1..]);
    }
  }

  // Only a character beyond the basic plane has a byte this high.
  ghost predicate HasHighByte(s: string) { exists i :: 0 <= i < |s| && s[i] as int >= 0xF0 }

  lemma {:induction false} UnitsReread(s: string)
    ensures InBmp(s) ==> Reread(Units(s)) == Utf8(s)
    ensures !InBmp(s) ==> HasHighByte(Utf8(s))
  {
    if s != "" {
      UnitsReread(s[1..]);
      var head, rest := RuneBytes(s[0] as int), Utf8(s[1..]);
      assert s == [s[0]] + s[1..];
      assert InBmp(s) <==> s[0] as int < 0x1_0000 && InBmp(s[1..]);
      assert s[0] as int >= 0x1_0000 ==> head[0] as int >= 0xF0;
      hide RuneBytes;
      assert Utf8(s) == head + rest;
      if s[0] as int < 0x1_0000 {
        assert Units(s) == [s[0] as int] + Units(s[1..]);
        if !InBmp(s) {
          var i :| 0 <= i < |rest| && rest[i] as int >= 0xF0;
          assert Utf8(s)[|head| + i] == rest[i];
        }
      } else {
        assert Utf8(s)[0] as int >= 0xF0;
      }
    }
  }

  lemma {:induction false} RereadHasNoHighByte(us: seq<Unit>)
    ensures !HasHighByte(Reread(us)) && |us| <= |Reread(us)|
  {
    if us != [] {
      RereadHasNoHighByte(us[1..]);
      assert !HasHighByte(RuneBytes(us[0]));
    }
  }

  lemma {:induction false} RereadCat(us: seq<Unit>, vs: seq<Unit>)
    ensures Reread(us + vs) == Reread(us) + Reread(vs)
  {
    hide RuneBytes;
    if us == [] {
      assert us + vs == vs;
    } else {
      assert (us + vs)[1..] == us[1..] + vs;
      RereadCat(us[1..], vs);
    }
  }

  // --- Round trip --------------------------------------------------------------------------------

  predicate EndsInSpace(s: string) { s != "" && s[|s| - 1] == ' ' }

  // Which values survive.
  predicate Printable(value: string, guarded: bool) { InBmp(value) && (guarded || !EndsInSpace(value)) }

  lemma LoadedUnits(us: seq<Unit>, guarded: bool)
    ensures !HasHighByte(Loaded(us, guarded))
    ensures Loaded(us, guarded) == Reread(us) <==> guarded || us == [] || us[|us| - 1] != SPACE
  {
    hide EscapeValue, Decode, Reread, TrimRight, HasHighByte;
    RereadHasNoHighByte(us);
    if us == [] {
      EmptyValue();
    } else if us[|us| - 1] != SPACE {
      ValueEnd(us);
      WholeValueDecodes(us);
    } else if guarded {
      GuardedLoads(us);
    } else {
      UnguardedSpace(us);
    }
  }

  lemma EmptyValue()
    ensures EscapeValue([]) == "" && TrimRight("", BLANKS) == "" && Decode("") == "" && Reread([]) == ""
  {
  }

  lemma GuardedSpaceEnd()
    ensures |UnicodeEscape(SPACE)| == 6 && UnicodeEscape(SPACE)[0] == SLASH && UnicodeEscape(SPACE)[5] == '0'
    ensures UnicodeEscape(SPACE)[5] !in BLANKS
  {
  }

  lemma GuardedSpaceDecodes()
    ensures Decode(UnicodeEscape(SPACE)) == Reread([SPACE])
  {
    var e := UnicodeEscape(SPACE);
    GuardedSpaceEnd();
    UnicodeEscapeDecodes(SPACE, "");
    hide RuneBytes, DecodeEscape, UnicodeEscape;
    assert e + "" == e && e[6..] == "" && Decode("") == "";
    assert [SPACE][1..] == [] && Reread([]) == "";
  }

  lemma NothingTrimmed(a: string, b: string)
    requires b != "" && b[|b| - 1] !in BLANKS
    ensures TrimRight(a + b, BLANKS) == a + b
  {
  }

  lemma GuardedSpace(us: seq<Unit>)
    ensures Decode(TrimRight(EscapeValue(us) + UnicodeEscape(SPACE), BLANKS)) == Reread(us + [SPACE])
  {
    GuardedSpaceDecodes();
    GuardedSpaceEnd();
    hide *;
    NothingTrimmed(EscapeValue(us), UnicodeEscape(SPACE));
    ValueDecodes(us, UnicodeEscape(SPACE));
    RereadCat(us, [SPACE]);
  }

  lemma GuardedLoads(us: seq<Unit>)
    requires us != [] && us[|us| - 1] == SPACE
    ensures Loaded(us, true) == Reread(us)
  {
    var init := us[..|us| - 1];
    assert Loaded(us, true) == Decode(TrimRight(EscapeValue(init) + UnicodeEscape(SPACE), BLANKS));
    assert init + [SPACE] == us;
    hide *;
    GuardedSpace(init);
  }

  // The first unit shows in what is read.
  lemma RereadFirst(us: seq<Unit>)
    requires us != []
    ensures Reread(us) != "" && Reread(us)[0] == RuneBytes(us[0])[0] && RuneBytes(SPACE)[0] == ' '
  {
  }

  lemma RereadPrefix(us: seq<Unit>, k: nat)
    requires k < |us|
    ensures Reread(us[..k]) != Reread(us)
  {
    hide Reread;
    RereadHasNoHighByte(us[k..]);
    RereadCat(us[..k], us[k..]);
    assert us[..k] + us[k..] == us;
  }

  lemma UnguardedSpace(us: seq<Unit>)
    requires us != [] && us[|us| - 1] == SPACE
    ensures Loaded(us, false) != Reread(us) && !HasHighByte(Loaded(us, false))
  {
    TrimmedValue(us);
    RereadFirst(us);
    assert Decode([SLASH]) == [SLASH] && SLASH != ' ';
    assert Loaded(us, false) == Decode(TrimRight(EscapeValue(us), BLANKS));
    hide EscapeValue, Decode, Reread, TrimRight, RuneBytes, Loaded;
    if TrimRight(EscapeValue(us), BLANKS) != [SLASH] || us[0] != SPACE {
      var k :| 0 < k < |us| && TrimRight(EscapeValue(us), BLANKS) == EscapeValue(us[..k]);
      hide *;
      WholeValueDecodes(us[..k]);
      RereadHasNoHighByte(us[..k]);
      RereadPrefix(us, k);
    }
  }

  lemma {:induction false} UnitsLast(s: string)
    requires s != "" && InBmp(s)
    ensures Units(s) != [] && Units(s)[|Units(s)| - 1] == s[|s| - 1] as int
  {
    if |s| > 1 {
      UnitsLast(s[1..]);
    }
  }

  /** A value is read back as it was exactly when it is printable. */
  lemma ValueLoads(value: string, guarded: bool)
    ensures Loaded(Units(value), guarded) == Utf8(value) <==> Printable(value, guarded)
  {
    hide Loaded, Reread, Units, Utf8;
    LoadedUnits(Units(value), guarded);
    UnitsReread(value);
    UnitsEmpty(value);
    if value != "" && InBmp(value) {
      UnitsLast(value);
    }
  }

  // --- Whole texts ---------------------------------------------------------------------------------

  lemma {:induction false} LinesStay(lines: seq<string>)
    requires forall line :: line in lines ==> Clean(line)
    ensures AbsorbAll(lines) == Lines(lines, "")
    ensures Without(lines, '\n')
  {
    if lines != [] {
      var init, last := lines[..|lines| - 1], lines[|lines| - 1];
      LinesStay(init);
      assert last in lines && TrimRight(last, RETURNS) == last && "" + last == last;
      assert lines == init + [last];
      hide Clean, TrimRight, TrimLeft;
    }
  }

  lemma {:induction false} PrintLinesClean(ps: seq<Property>, guarded: bool)
    ensures forall line :: line in PrintLines(ps, guarded) ==> Clean(line)
    ensures |PrintLines(ps, guarded)| == |ps|
  {
    hide PrintLine, Clean;
    if ps != [] {
      PrintLinesClean(ps[..|ps| - 1], guarded);
      LineParses(ps[|ps| - 1], guarded);
    }
  }

  lemma EmptyText()
    ensures Parse("") == map[]
  {
    assert Split("", '\n') == [""];
    assert TrailingSlashes("") == 0;
    LinesStay([""]);
    assert [""][..0] == [] && ParseLines([]) == map[];
    assert ParseLine("") == None;
    hide Split, AbsorbAll, ParseLine;
  }

  lemma LinesParse(lines: seq<string>)
    requires forall line :: line in lines ==> Clean(line)
    ensures Parse(Join(lines, '\n')) == ParseLines(lines)
  {
    if lines == [] {
      hide Parse, Clean;
      EmptyText();
    } else {
      LinesStay(lines);
      SplitJoin(lines, '\n');
      hide ParseLines, AbsorbAll, Split, Join, Clean, Without;
    }
  }

  // Reading a printed text reads its lines one by one.
  lemma PrintedTextParses(ps: seq<Property>, guarded: bool)
    ensures Parse(Print(ps, guarded)) == ParseLines(PrintLines(ps, guarded))
  {
    hide PrintLines, ParseLines, Parse, Join, Clean;
    PrintLinesClean(ps, guarded);
    LinesParse(PrintLines(ps, guarded));
  }

  lemma {:induction false} KeptAll(ps: seq<Property>, guarded: bool)
    requires forall p :: p in ps ==> p.key != "" && InBmp(p.key) && Printable(p.value, guarded)
    ensures ParseLines(PrintLines(ps, guarded)) == Stored(ps)
  {
    hide ParseLine, PrintLine, Utf8, Units, Reread, Loaded, InBmp, Printable;
    if ps != [] {
      var init, last := ps[..|ps| - 1], ps[|ps| - 1];
      assert last in ps;
      KeptAll(init, guarded);
      LineParses(last, guarded);
      UnitsReread(last.key);
      ValueLoads(last.value, guarded);
      assert PrintLines(ps, guarded)[..|PrintLines(ps, guarded)| - 1] == PrintLines(init, guarded);
    }
  }

  ghost predicate DistinctKeys(ps: seq<Property>) { forall i, j :: 0 <= i < j < |ps| ==> ps[i].key != ps[j].key }

  lemma {:induction false} StoredFinds(ps: seq<Property>, i: nat)
    requires DistinctKeys(ps) && i < |ps|
    ensures Utf8(ps[i].key) in Stored(ps) && Stored(ps)[Utf8(ps[i].key)] == Utf8(ps[i].value)
  {
    hide Utf8;
    if i < |ps| - 1 {
      StoredFinds(ps[..|ps| - 1], i);
      if Utf8(ps[i].key) == Utf8(ps[|ps| - 1].key) {
        Utf8Injective(ps[i].key, ps[|ps| - 1].key);
      }
    }
  }

  lemma {:induction false} KeysRead(ps: seq<Property>, guarded: bool)
    ensures forall k :: k in ParseLines(PrintLines(ps, guarded)) ==> k != "" && !HasHighByte(k)
  {
    if ps != [] {
      var init, last := ps[..|ps| - 1], ps[|ps| - 1];
      KeysRead(init, guarded);
      LineParses(last, guarded);
      UnitsEmpty(last.key);
      RereadHasNoHighByte(Units(last.key));
      hide ParseLine, PrintLine, Utf8, Units, Loaded, HasHighByte, Reread;
      assert PrintLines(ps, guarded)[..|PrintLines(ps, guarded)| - 1] == PrintLines(init, guarded);
    }
  }

  ghost predicate GoodKeys(ps: seq<Property>) { forall i :: 0 <= i < |ps| ==> ps[i].key != "" && InBmp(ps[i].key) }

  lemma {:induction false} ReadFinds(ps: seq<Property>, guarded: bool, i: nat)
    requires DistinctKeys(ps) && GoodKeys(ps) && i < |ps|
    ensures var m := ParseLines(PrintLines(ps, guarded));
            Utf8(ps[i].key) in m && m[Utf8(ps[i].key)] == Loaded(Units(ps[i].value), guarded)
  {
    hide ParseLine, PrintLine, Utf8, Units, Loaded, InBmp, Reread;
    var init, last := ps[..|ps| - 1], ps[|ps| - 1];
    LineParses(last, guarded);
    UnitsReread(last.key);
    assert PrintLines(ps, guarded)[..|PrintLines(ps, guarded)| - 1] == PrintLines(init, guarded);
    if i < |init| {
      ReadFinds(init, guarded, i);
      if Utf8(ps[i].key) == Utf8(last.key) {
        Utf8Injective(ps[i].key, last.key);
      }
    }
  }

  /**
   Printed properties are read back as they were exactly when every key is non-empty and in
   the basic plane, every value is in the basic plane and, in Java's own form, none ends in
   a space.
   */
  lemma PrintReadsBackIff(ps: seq<Property>, guarded: bool)
    requires DistinctKeys(ps)
    ensures Parse(Print(ps, guarded)) == Stored(ps) <==>
            forall p :: p in ps ==> p.key != "" && InBmp(p.key) && Printable(p.value, guarded)
  {
    hide ParseLines, Stored, PrintLines, Parse, Print, Utf8, Units, Loaded, InBmp, HasHighByte, Printable;
    PrintedTextParses(ps, guarded);
    KeysRead(ps, guarded);
    if forall p :: p in ps ==> p.key != "" && InBmp(p.key) && Printable(p.value, guarded) {
      KeptAll(ps, guarded);
    } else if GoodKeys(ps) {
      var i :| 0 <= i < |ps| && !Printable(ps[i].value, guarded);
      StoredFinds(ps, i);
      ReadFinds(ps, guarded, i);
      ValueLoads(ps[i].value, guarded);
    } else {
      var i :| 0 <= i < |ps| && (ps[i].key == "" || !InBmp(ps[i].key));
      StoredFinds(ps, i);
      Utf8Empty();
      UnitsReread(ps[i].key);
      assert ps[i] in ps;
    }
  }

  lemma Utf8Empty()
    ensures Utf8("") == ""
  {
  }
}
