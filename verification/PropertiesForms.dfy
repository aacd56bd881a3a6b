/**
 The forms of a line that the store format never prints: comments, the other separators and
 the other escapes (backend/internal/kafkaconn/props.go).
 */
module PropertiesForms {
  import opened Basics
  import opened PropertiesText
  import opened PropertiesPrint

  ghost predicate Blank(s: string) { forall c :: c in s ==> c == ' ' || c == '\t' || c == FORM_FEED }

  // A key that needs no escape.
  ghost predicate PlainKey(key: string) {
    && key != "" && key[0] != '#' && key[0] != '!'
    && forall c :: c in key ==> c != SLASH && c != '=' && c != ':' && c != ' ' && c != '\t' && c != FORM_FEED
  }

  ghost predicate IsSeparator(sep: string) { sep == "" || sep == "=" || sep == ":" }

  /** Blank lines and comments say nothing. */
  lemma CommentsAreSkipped(lead: string, mark: char, rest: string)
    requires Blank(lead) && (mark == '#' || mark == '!')
    ensures ParseLine(lead + ([mark] + rest)) == None && ParseLine(lead) == None
  {
    hide KeyAndValue;
    TrimLeftSkips(lead, [mark] + rest);
    TrimLeftSkips(lead, "");
    assert lead + "" == lead;
  }

  lemma {:induction false} PlainKeyScans(key: string, rest: string)
    requires forall c :: c in key ==> c != SLASH && !EndsKey(c)
    requires rest != "" ==> rest[0] != SLASH && EndsKey(rest[0])
    ensures ScanKey(key + rest) == (key, rest)
  {
    if key == "" {
      assert key + rest == rest;
    } else {
      assert key[0] in key && (key + rest)[1..] == key[1..] + rest;
      assert forall c :: c in key[1..] ==> c in key;
      PlainKeyScans(key[1..], rest);
      assert [key[0]] + key[1..] == key;
    }
  }

  lemma AnySeparator(gap: string, sep: string, indent: string, value: string)
    requires Blank(gap) && Blank(indent) && IsSeparator(sep) && (value != "" ==> value[0] !in BLANKS)
    requires sep == "" && value != "" ==> value[0] != '=' && value[0] != ':'
    ensures AfterSeparator(gap + (sep + (indent + value))) == value
  {
    hide TrimLeft;
    var rest := sep + (indent + value);
    if sep == "" {
      assert gap + rest == gap + indent + value;
      TrimLeftSkips(gap + indent, value);
    } else {
      TrimLeftSkips(gap, rest);
      assert rest[1..] == indent + value;
      TrimLeftSkips(indent, value);
    }
  }

  lemma {:induction false} TrailTrims(value: string, trail: string)
    requires Blank(trail) && (value != "" ==> value[|value| - 1] !in BLANKS)
    ensures TrimRight(value + trail, BLANKS) == value
  {
    if trail == "" {
      assert value + trail == value;
    } else {
      var n := |trail| - 1;
      assert trail[n] in trail && (value + trail)[..|value| + n] == value + trail[..n];
      assert forall c :: c in trail[..n] ==> c in trail;
      TrailTrims(value, trail[..n]);
    }
  }

  lemma LineReads(lead: string, line: string)
    requires Blank(lead) && line != "" && line[0] !in BLANKS && line[0] != '#' && line[0] != '!'
    requires KeyAndValue(line).0 != ""
    ensures ParseLine(lead + line) == Some(KeyAndValue(line))
  {
    hide KeyAndValue, TrimLeft;
    TrimLeftSkips(lead, line);
  }

  /**
   Between a key and its value may stand an equals sign, a colon or blanks alone, and blanks
   around them; blanks before the key and behind the value do not count.
   */
  lemma EverySeparatorReads(lead: string, key: string, gap: string, sep: string, indent: string, value: string,
                            trail: string)
    requires Blank(lead) && Blank(gap) && Blank(indent) && Blank(trail) && IsSeparator(sep) && PlainKey(key)
    requires if value == "" then trail == "" else
               && gap + sep + indent != "" && value[0] !in BLANKS && value[|value| - 1] !in BLANKS
               && (sep == "" ==> value[0] != '=' && value[0] != ':')
    ensures ParseLine(lead + (key + (gap + (sep + (indent + (value + trail)))))) == Some((key, Decode(value)))
  {
    var line := key + (gap + (sep + (indent + (value + trail))));
    KeyEnds(key, gap, sep, indent, value + trail);
    assert line[0] == key[0];
    assert KeyAndValue(line) == (key, Decode(value)) by {
      AnySeparator(gap, sep, indent, value + trail);
      TrailTrims(value, trail);
      hide Decode, ScanKey, AfterSeparator, TrimRight;
    }
    hide *;
    LineReads(lead, line);
  }

  lemma KeyEnds(key: string, gap: string, sep: string, indent: string, tail: string)
    requires Blank(gap) && Blank(indent) && IsSeparator(sep) && PlainKey(key)
    requires gap + sep + indent != "" || tail == ""
    ensures key[0] !in BLANKS
    ensures ScanKey(key + (gap + (sep + (indent + tail)))) == (key, gap + (sep + (indent + tail)))
  {
    var rest := gap + (sep + (indent + tail));
    if rest != "" {
      assert rest[0] == if gap != "" then gap[0] else if sep != "" then sep[0] else indent[0];
      assert gap != "" ==> gap[0] in gap;
      assert indent != "" ==> indent[0] in indent;
    }
    PlainKeyScans(key, rest);
  }

  /** A backslash stands for nothing but itself before a Unicode escape that is not one, and is dropped elsewhere. */
  lemma OtherEscapes(c: char, rest: string)
    ensures c !in "tnrfu" && c as int < 0x80 ==> DecodeEscape([SLASH, c] + rest) == ([c], 2)
    ensures |rest| < 4 || !IsHex4(rest[..4]) ==> DecodeEscape([SLASH, 'u'] + rest) == ([SLASH, 'u'], 2)
    ensures DecodeEscape([SLASH, 't'] + rest).0 == "\t" && DecodeEscape([SLASH, 'n'] + rest).0 == "\n"
    ensures DecodeEscape([SLASH, 'r'] + rest).0 == "\r" && DecodeEscape([SLASH, 'f'] + rest).0 == [FORM_FEED]
    ensures DecodeEscape([SLASH]) == ([SLASH], 1)
  {
    var line := [SLASH, 'u'] + rest;
    if |rest| >= 4 {
      assert line[2..6] == rest[..4];
    }
  }

  // Hexadecimal digits count alike in both cases.
  lemma HexInBothCases(d: nat)
    requires d < 6
    ensures IsHex('a' + d as char) && IsHex('A' + d as char)
    ensures HexValue('a' + d as char) == HexValue('A' + d as char) == 10 + d
  {
    assert ('a' + d as char) as int == 97 + d && ('A' + d as char) as int == 65 + d;
  }

  /** A line that says nothing may stand between any others. */
  lemma SilentLinesAreInvisible(before: seq<string>, silent: string, after: seq<string>)
    requires ParseLine(silent) == None && Clean(silent)
    requires forall line :: line in before + after ==> Clean(line)
    ensures Parse(Join(before + [silent] + after, '\n')) == Parse(Join(before + after, '\n'))
  {
    hide ParseLine, Clean;
    SilentLine(before, silent, after);
    LinesParse(before + [silent] + after);
    LinesParse(before + after);
  }

  lemma {:induction false} SilentLine(before: seq<string>, silent: string, after: seq<string>)
    requires ParseLine(silent) == None
    ensures ParseLines(before + [silent] + after) == ParseLines(before + after)
  {
    hide ParseLine;
    if after == [] {
      assert before + [silent] + after == before + [silent] && before + after == before;
      assert (before + [silent])[..|before|] == before;
    } else {
      var n := |after| - 1;
      SilentLine(before, silent, after[..n]);
      var long, short := before + [silent] + after, before + after;
      assert long[..|long| - 1] == before + [silent] + after[..n];
      assert short[..|short| - 1] == before + after[..n];
    }
  }

  // The line that gives a key its value.
  ghost predicate LastLineOf(lines: seq<string>, key: string, i: int) {
    && 0 <= i < |lines| && ParseLine(lines[i]).Some? && ParseLine(lines[i]).value.0 == key
    && forall j :: i < j < |lines| && ParseLine(lines[j]).Some? ==> ParseLine(lines[j]).value.0 != key
  }

  /** A key is in the result exactly when a line has it, and its value is that of the last such line. */
  lemma {:induction false} LastLineWins(lines: seq<string>, key: string)
    ensures key in ParseLines(lines) <==> exists i :: LastLineOf(lines, key, i)
    ensures forall i :: LastLineOf(lines, key, i) ==>
              key in ParseLines(lines) && ParseLines(lines)[key] == ParseLine(lines[i]).value.1
  {
    if lines != [] {
      hide *;
      LastLineWins(lines[..|lines| - 1], key);
      LineWins(lines, key);
      assert LastLineOf(lines, key, |lines| - 1) || !LastLineOf(lines, key, |lines| - 1);
    }
  }

  // The last line decides unless it says nothing about the key.
  lemma LineWins(lines: seq<string>, key: string)
    requires lines != []
    ensures var init, entry := lines[..|lines| - 1], ParseLine(lines[|lines| - 1]);
            if entry.Some? && entry.value.0 == key
            then
              && key in ParseLines(lines) && ParseLines(lines)[key] == entry.value.1
              && forall i :: LastLineOf(lines, key, i) <==> i == |lines| - 1
            else
              && (key in ParseLines(lines) <==> key in ParseLines(init))
              && (key in ParseLines(lines) ==> ParseLines(lines)[key] == ParseLines(init)[key])
              && forall i :: LastLineOf(lines, key, i) <==> LastLineOf(init, key, i)
    ensures forall i :: LastLineOf(lines[..|lines| - 1], key, i) ==> lines[i] == lines[..|lines| - 1][i]
  {
    hide ParseLine;
    var n := |lines| - 1;
    var init := lines[..n];
    assert forall j :: 0 <= j < n ==> lines[j] == init[j];
  }

  function WithReturns(lines: seq<string>): (r: seq<string>)
    ensures |r| == |lines|
  {
    seq(|lines|, i requires 0 <= i < |lines| => lines[i] + "\r")
  }

  lemma ReturnIsTrimmed(line: string)
    ensures TrimRight(line + "\r", RETURNS) == TrimRight(line, RETURNS)
  {
    assert (line + "\r")[..|line|] == line;
  }

  lemma {:induction false} ReturnsAbsorbed(lines: seq<string>)
    ensures AbsorbAll(WithReturns(lines)) == AbsorbAll(lines)
  {
    if lines != [] {
      hide TrimRight, TrimLeft, EvenTail;
      var n := |lines| - 1;
      ReturnsAbsorbed(lines[..n]);
      assert WithReturns(lines)[..n] == WithReturns(lines[..n]);
      ReturnIsTrimmed(lines[n]);
    }
  }

  /** A text with carriage returns at its line ends is parsed like the one without. */
  lemma ReturnsAreInvisible(lines: seq<string>)
    requires lines != [] && Without(lines, '\n')
    ensures Parse(Join(WithReturns(lines), '\n')) == Parse(Join(lines, '\n'))
  {
    hide Join, Split, AbsorbAll, ParseLines;
    ReturnsAbsorbed(lines);
    assert Without(WithReturns(lines), '\n');
    hide WithReturns, Without;
    SplitJoin(lines, '\n');
    SplitJoin(WithReturns(lines), '\n');
  }

  /** A backslash at the end of the text continues nothing and is dropped. */
  lemma LastSlashIsDropped(before: seq<string>, line: string)
    requires (forall l :: l in before ==> Clean(l)) && Clean(line)
    ensures Parse(Join(before + [line + [SLASH]], '\n')) == Parse(Join(before + [line], '\n'))
  {
    var slashed, plain := before + [line + [SLASH]], before + [line];
    hide *;
    LastLine(before, line);
    CleanLine(line);
    LinesStayApart(before, line);
    SplitJoin(slashed, '\n');
    SplitJoin(plain, '\n');
    BothParse(slashed, plain);
  }

  lemma LinesStayApart(before: seq<string>, line: string)
    requires (forall l :: l in before ==> Clean(l)) && Clean(line)
    ensures Without(before + [line + [SLASH]], '\n') && Without(before + [line], '\n')
  {
    LinesStay(before);
    CleanLine(line);
    hide Clean, AbsorbAll;
  }

  lemma BothParse(a: seq<string>, b: seq<string>)
    requires Split(Join(a, '\n'), '\n') == a && Split(Join(b, '\n'), '\n') == b
    requires ParseLines(LogicalLines(a)) == ParseLines(LogicalLines(b))
    ensures Parse(Join(a, '\n')) == Parse(Join(b, '\n'))
  {
    hide Join, Split, LogicalLines, ParseLines;
  }

  // Both last lines leave the same logical lines, but for an empty one.
  lemma LastLine(before: seq<string>, line: string)
    requires (forall l :: l in before ==> Clean(l)) && Clean(line)
    ensures ParseLines(LogicalLines(before + [line + [SLASH]])) == ParseLines(LogicalLines(before + [line]))
  {
    hide *;
    LogicalEnds(before, line);
    EmptyLineIsSilent();
    SilentLine(before, "", []);
    assert before + [""] + [] == before + [""] && before + [] == before;
  }

  lemma EmptyLineIsSilent()
    ensures ParseLine("") == None
  {
    CommentsAreSkipped("", '#', "");
  }

  lemma LogicalEnds(before: seq<string>, line: string)
    requires (forall l :: l in before ==> Clean(l)) && Clean(line)
    ensures LogicalLines(before + [line]) == before + [line]
    ensures LogicalLines(before + [line + [SLASH]]) == if line == "" then before else before + [line]
  {
    LinesStay(before);
    CleanLine(line);
    OneLineMore(before, line);
    OneLineMore(before, line + [SLASH]);
    hide Clean, Extend, EvenTail, AbsorbAll;
    CatSlices(line, [SLASH]);
  }

  lemma OneLineMore(before: seq<string>, line: string)
    ensures AbsorbAll(before + [line]) == Absorb(AbsorbAll(before), line)
  {
    assert (before + [line])[..|before|] == before;
    hide Absorb;
  }

  lemma CleanLine(line: string)
    requires Clean(line)
    ensures '\n' !in line && '\n' !in line + [SLASH]
    ensures Extend("", line) == line && EvenTail(line)
    ensures Extend("", line + [SLASH]) == line + [SLASH] && !EvenTail(line + [SLASH])
  {
    TailParity(line, [SLASH]);
    assert TrailingSlashes([SLASH]) == 1;
    assert "" + line == line;
  }
}
