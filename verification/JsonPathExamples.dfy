/** Paths on which the two evaluators answer differently, one for each way they can. */
module JsonPathExamples {
  import opened Basics
  import opened JsonPath
  import opened JsonPathAgreement
  import opened JsonPathRender

  // One segment: both evaluators read it as it stands.
  lemma OneSegment(path: string)
    requires path != "" && path[0] != '$' && path[0] != '.' && '.' !in path
    requires path[0] !in SPACES && path[|path| - 1] !in SPACES
    ensures !BlankPath(path) && FilterParts(path) == [path] == DigestSegments(path)
    ensures FilterTokens(path) == PartTokens(path) && DigestTokens(path) == SegmentTokens(path)
  {
    NothingToTrim(path);
    SplitOnce(path, "", '.');
    hide SPACES, TrimSpace, Split, PartTokens, SegmentTokens;
    assert [path][..0] == [];
    NoParts();
    assert PartTokens(path).Some? ==> [] + PartTokens(path).value == PartTokens(path).value;
    assert SegmentTokens(path).Some? ==> [] + SegmentTokens(path).value == SegmentTokens(path).value;
  }

  // The value { name: true }.
  function Holding(name: string): Json { Object(map[name := LEAF]) }

  lemma HoldsOnly(name: string, tokens: seq<Token>)
    requires tokens != [] && tokens[0].Key?
    ensures tokens[0].key != name ==> Find(Holding(name), tokens).None?
    ensures tokens == [Key(name)] ==> Find(Holding(name), tokens) == Some(LEAF)
  {
    var first := tokens[0];
    assert tokens == [first] + tokens[1..];
    FindCat(Holding(name), [first], tokens[1..]);
    FindOne(Holding(name), first);
  }

  lemma NoFilterIndex(s: string)
    requires s == "a[x]"
    ensures PartTokens(s).None?
  {
    hide Atoi, Indexed, PartTokens, TrimSpace, SPACES, Steps, IndexOf;
    assert s[1] == '[' && s[2] == 'x' && s[3] == ']';
    if PartTokens(s).Some? {
      PartUnfolds(s);
      var b, e, number, rest := IndexedPieces(s);
      assert false;
    }
  }

  lemma NoDigestIndex(s: string)
    requires s == "a[x]"
    ensures SegmentTokens(s) == Some([Key(s)])
  {
    LetterIsNoSpace();
    NoNumber();
    hide Atoi, SegmentTokens, TrimSpace, SPACES;
    NothingToTrim("x");
    assert s[2..3] == "x";
    DigestReads(s, 1, "x", None);
  }

  lemma LetterIsNoSpace()
    ensures 'x' !in SPACES && 'a' !in SPACES
  {
  }

  lemma NoNumber()
    ensures Atoi("x").None?
  {
  }

  /** The filter rejects an index that is no number; the digest takes the segment for a key. */
  lemma IndexThatIsNoNumber(data: Option<string>, marshal: Json -> string)
    ensures FilterAnswer(data, Some(Holding("a[x]")), "a[x]", marshal) == None
    ensures DigestAnswer(Some(Holding("a[x]")), "a[x]", marshal) == Some("true")
    ensures !ReadAlike("a[x]")
  {
    var s := "a[x]";
    NotSpaces();
    LetterIsNoSpace();
    OneSegment(s);
    hide SPACES, FilterTokens, DigestTokens, ReadAlike, BlankPath, Find, PartTokens, SegmentTokens;
    NoFilterIndex(s);
    NoDigestIndex(s);
    HoldsOnly(s, [Key(s)]);
    ReadAlikeIff(s);
  }

  lemma PrintedIndexes()
    ensures "a" + Bracketed(Decimal(0), "") == "a[0]" && "a[0]" + Bracketed(Decimal(1), "") == "a[0][1]"
  {
    assert Decimal(0) == "0" && Decimal(1) == "1";
  }

  lemma TwoIndexSteps(s: string)
    requires s == "a[0][1]"
    ensures PartTokens(s) == Some([Key("a"), Index(0), Index(1)]) && SegmentTokens(s) == Some([Key(s)])
  {
    hide PartTokens, Decimal, Bracketed, SegmentTokens, SPACES, Atoi, IndexOf, TrimSpace;
    PrintedIndexes();
    NoIndex("a");
    PartAppend("a", 0);
    PartAppend("a[0]", 1);
    assert s[1] == '[' && s[4] == '[';
    SegmentReadings(s);
    assert [Key("a")] + [Index(0)] + [Index(1)] == [Key("a"), Index(0), Index(1)];
  }

  /** Two indexes are two steps for the filter; the digest takes the segment for a key. */
  lemma TwoIndexes(data: Option<string>, marshal: Json -> string)
    ensures FilterAnswer(data, Some(Holding("a[0][1]")), "a[0][1]", marshal) == None
    ensures DigestAnswer(Some(Holding("a[0][1]")), "a[0][1]", marshal) == Some("true")
    ensures !ReadAlike("a[0][1]")
  {
    var s := "a[0][1]";
    TwoIndexesRead(s);
    hide *;
    HoldsOnly(s, [Key("a"), Index(0), Index(1)]);
    HoldsOnly(s, [Key(s)]);
    TwoAnswers(data, s, marshal);
    ReadAlikeIff(s);
  }

  lemma TwoIndexesRead(s: string)
    requires s == "a[0][1]"
    ensures !BlankPath(s) && FilterTokens(s) == Some([Key("a"), Index(0), Index(1)])
    ensures DigestTokens(s) == Some([Key(s)])
    ensures s != "a"
  {
    NotSpaces();
    LetterIsNoSpace();
    hide SPACES, FilterTokens, DigestTokens, BlankPath, PartTokens, SegmentTokens, FilterParts, DigestSegments;
    OneSegment(s);
    TwoIndexSteps(s);
    assert |s| == 7;
  }

  lemma TwoAnswers(data: Option<string>, s: string, marshal: Json -> string)
    requires !BlankPath(s)
    requires FindAll(Holding(s), FilterTokens(s)).None? && FindAll(Holding(s), DigestTokens(s)) == Some(LEAF)
    ensures FilterAnswer(data, Some(Holding(s)), s, marshal) == None
    ensures DigestAnswer(Some(Holding(s)), s, marshal) == Some("true")
  {
    hide FilterTokens, DigestTokens, BlankPath, Find, FindAll;
  }

  lemma SpacedSteps()
    ensures !BlankPath("$ a") && FilterTokens("$ a") == Some([Key(" a")]) && DigestTokens("$ a") == Some([Key("a")])
  {
    NotSpaces();
    LetterIsNoSpace();
    NothingToTrim("$ a");
    assert "$ a"[1..] == " a" && " a"[1..] == "a";
    NothingToTrim("a");
    LastKept(" a");
    assert TrimLeft(" a", SPACES) == "a" by {
      assert TrimLeft("a", SPACES) == "a";
    }
    SplitOnce(" a", "", '.');
    SplitOnce("a", "", '.');
    NoIndex(" a");
    NoIndex("a");
    hide SPACES, TrimSpace, Split, PartTokens, SegmentTokens;
    assert [" a"][..0] == [] && ["a"][..0] == [];
    NoParts();
    assert [] + [Key(" a")] == [Key(" a")] && [] + [Key("a")] == [Key("a")];
  }

  /** A space behind the dollar belongs to the filter's key and not to the digest's. */
  lemma SpaceInKey(data: Option<string>, marshal: Json -> string)
    ensures FilterAnswer(data, Some(Holding("a")), "$ a", marshal) == None
    ensures DigestAnswer(Some(Holding("a")), "$ a", marshal) == Some("true")
    ensures !ReadAlike("$ a")
  {
    SpacedSteps();
    HoldsOnly("a", [Key(" a")]);
    HoldsOnly("a", [Key("a")]);
    hide FilterTokens, DigestTokens, ReadAlike, BlankPath, Find;
    ReadAlikeIff("$ a");
  }

  /** At the root the filter gives a string with its quotes and the digest without. */
  lemma RootString(marshal: Json -> string)
    ensures BlankPath("$")
    ensures FilterAnswer(Some("\"x\""), Some(String("x")), "$", marshal) == Some("\"x\"")
    ensures DigestAnswer(Some(String("x")), "$", marshal) == Some("x")
  {
    NotSpaces();
    NothingToTrim("$");
    BlankHasNoSteps("$");
  }
}
