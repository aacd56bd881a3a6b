/**
 JSON paths: the parser of the field filters (backend/internal/kafkaconn/messages.go) and the
 separately written lookup of the digest (backend/internal/mcp/digest.go).
 */
module JsonPath {
  import opened Basics

  datatype Json = Null | Bool(b: bool) | Number(text: string) | String(s: string)
                | Array(items: seq<Json>) | Object(fields: map<string, Json>)

  datatype Token = Key(key: string) | Index(index: int)

  function TrimPrefix(s: string, c: char): string { if s != "" && s[0] == c then s[1..] else s }

  // strings.Index of one character.
  function IndexOf(s: string, c: char): (i: int)
    ensures -1 <= i < |s|
    ensures 0 <= i ==> s[i] == c && forall k :: 0 <= k < i ==> s[k] != c
    ensures i < 0 <==> c !in s
  {
    if s == "" then -1
    else if s[0] == c then 0
    else if IndexOf(s[1..], c) < 0 then -1
    else 1 + IndexOf(s[1..], c)
  }

  // --- The filter's parser -----------------------------------------------------------------------

  // A key, if any, and an index, if any.
  function Steps(name: string, index: Option<int>): seq<Token> {
    (if name != "" then [Key(name)] else []) + (if index.Some? then [Index(index.value)] else [])
  }

  // A key, if any, its first index, and what follows the bracket.
  function Indexed(part: string): (r: Option<(seq<Token>, string)>)
    requires '[' in part
    ensures r.Some? ==> |r.value.1| < |part|
  {
    var bracket := IndexOf(part, '[');
    var end := IndexOf(part[bracket..], ']');
    if end <= 1 then None
    else
      var index, rest := Atoi(part[bracket + 1..bracket + end]), part[bracket + end + 1..];
      if index.None? || index.value < 0 || (rest != "" && rest[0] != '[') then None
      else Some((Steps(part[..bracket], index), rest))
  }

  // One segment: a key, indexes in brackets, or a key with indexes.
  function PartTokens(part: string): (r: Option<seq<Token>>)
    decreases |part|
  {
    if part == "" then Some([])
    else if '[' !in part then Some([Key(part)])
    else
      match Indexed(part)
      case None => None
      case Some(head) => match PartTokens(head.1) case None => None case Some(more) => Some(head.0 + more)
  }

  function PartsTokens(parts: seq<string>): Option<seq<Token>> {
    if parts == [] then Some([])
    else
      match PartsTokens(parts[..|parts| - 1])
      case None => None
      case Some(before) =>
        if parts[|parts| - 1] == "" then None
        else match PartTokens(parts[|parts| - 1]) case None => None case Some(more) => Some(before + more)
  }

  function FilterParts(path: string): seq<string> {
    var normalized := TrimPrefix(TrimPrefix(TrimSpace(path), '$'), '.');
    if normalized == "" then [] else Split(normalized, '.')
  }

  function FilterTokens(path: string): Option<seq<Token>> { PartsTokens(FilterParts(path)) }

  // --- The digest's lookup -----------------------------------------------------------------------

  // splitIndexSuffix
  function SplitIndexSuffix(segment: string): (r: (string, Option<int>)) {
    var open := IndexOf(segment, '[');
    if open < 0 || segment[|segment| - 1] != ']' then (segment, None)
    else
      match Atoi(TrimSpace(segment[open + 1..|segment| - 1]))
      case None => (segment, None)
      case Some(number) => (segment[..open], Some(number))
  }

  // The steps a segment stands for; none if it can match nothing.
  function SegmentTokens(segment: string): Option<seq<Token>> {
    var (name, index) := SplitIndexSuffix(segment);
    if (name == "" && index.None?) || (index.Some? && index.value < 0) then None
    else Some(Steps(name, index))
  }

  function SegmentsTokens(segments: seq<string>): Option<seq<Token>> {
    if segments == [] then Some([])
    else
      match SegmentsTokens(segments[..|segments| - 1])
      case None => None
      case Some(before) =>
        match SegmentTokens(segments[|segments| - 1]) case None => None case Some(more) => Some(before + more)
  }

  function DigestSegments(path: string): seq<string> {
    var normalized := TrimPrefix(TrimSpace(TrimPrefix(TrimSpace(path), '$')), '.');
    if normalized == "" then [] else Split(normalized, '.')
  }

  function DigestTokens(path: string): Option<seq<Token>> { SegmentsTokens(DigestSegments(path)) }

  // --- Walking a value ---------------------------------------------------------------------------

  function Step(v: Json, t: Token): Option<Json> {
    match t
    case Key(k) => if v.Object? && k in v.fields then Some(v.fields[k]) else None
    case Index(i) => if v.Array? && 0 <= i < |v.items| then Some(v.items[i]) else None
  }

  function Find(root: Json, tokens: seq<Token>): Option<Json> {
    if tokens == [] then Some(root)
    else match Find(root, tokens[..|tokens| - 1]) case None => None case Some(v) => Step(v, tokens[|tokens| - 1])
  }

  function FindAll(root: Json, tokens: Option<seq<Token>>): Option<Json> {
    match tokens case None => None case Some(ts) => Find(root, ts)
  }

  // --- The program's loops -----------------------------------------------------------------------

  lemma {:induction false} FailedPartsFail(parts: seq<string>, n: nat)
    requires n <= |parts| && PartsTokens(parts[..n]).None?
    ensures PartsTokens(parts).None?
    decreases |parts| - n
  {
    if n == |parts| {
      assert parts[..n] == parts;
    } else {
      assert parts[..n + 1][..n] == parts[..n];
      FailedPartsFail(parts, n + 1);
    }
  }

  // The loop has consumed the segment down to part.
  ghost predicate ParsedTo(segment: string, part: string, done: seq<Token>) {
    PartTokens(segment) == match PartTokens(part) case None => None case Some(more) => Some(done + more)
  }

  lemma ParsedStep(segment: string, part: string, done: seq<Token>)
    requires part != "" && ParsedTo(segment, part, done)
    ensures if '[' !in part then PartTokens(segment) == Some(done + [Key(part)])
            else match Indexed(part)
              case None => PartTokens(segment).None?
              case Some(head) => ParsedTo(segment, head.1, done + head.0)
  {
    if '[' in part && Indexed(part).Some? {
      var head := Indexed(part).value;
      hide Indexed;
      if PartTokens(head.1).Some? {
        CatAssociates(done, head.0, PartTokens(head.1).value);
      }
    }
  }

  lemma ParsedNone(segment: string)
    ensures ParsedTo(segment, segment, [])
  {
    hide PartTokens;
    assert forall more: seq<Token> :: [] + more == more;
  }

  lemma ParsedAll(segment: string, done: seq<Token>)
    requires ParsedTo(segment, "", done)
    ensures PartTokens(segment) == Some(done)
  {
    assert PartTokens("") == Some([]);
    hide PartTokens;
    assert done + [] == done;
  }

  method ReadIndexed(part: string, bracket: nat) returns (head: Option<(seq<Token>, string)>)
    requires bracket == IndexOf(part, '[')
    ensures head == Indexed(part)
  {
    hide IndexOf, Atoi;
    var end := IndexOf(part[bracket..], ']');
    if end <= 1 { return None; }
    var index := Atoi(part[bracket + 1..bracket + end]);
    if index.None? || index.value < 0 { return None; }
    var rest := part[bracket + end + 1..];
    if rest != "" && rest[0] != '[' { return None; }
    var tokens := if bracket > 0 then [Key(part[..bracket])] else [];
    tokens := tokens + [Index(index.value)];
    return Some((tokens, rest));
  }

  // The loop over one segment.
  method ParsePart(segment: string) returns (tokens: Option<seq<Token>>)
    requires segment != ""
    ensures tokens == PartTokens(segment)
  {
    hide *;
    var part, done: seq<Token> := segment, [];
    ParsedNone(segment);
    while part != ""
      invariant ParsedTo(segment, part, done)
      decreases |part|
    {
      ParsedStep(segment, part, done);
      var bracket := IndexOf(part, '[');
      if bracket < 0 {
        return Some(done + [Key(part)]);
      }
      var head := ReadIndexed(part, bracket);
      if head.None? { return None; }
      done, part := done + head.value.0, head.value.1;
    }
    ParsedAll(segment, done);
    return Some(done);
  }

  lemma PartsStep(parts: seq<string>, i: nat)
    requires i < |parts| && PartsTokens(parts[..i]).Some?
    ensures PartsTokens(parts[..i + 1]) ==
            if parts[i] == "" || PartTokens(parts[i]).None? then None
            else Some(PartsTokens(parts[..i]).value + PartTokens(parts[i]).value)
  {
    hide PartTokens;
    assert parts[..i + 1][..i] == parts[..i];
  }

  method ParseJsonPath(path: string) returns (tokens: Option<seq<Token>>)
    ensures tokens == FilterTokens(path)
  {
    var normalized := TrimPrefix(TrimPrefix(TrimSpace(path), '$'), '.');
    if normalized == "" { return Some([]); }
    var parts, done: seq<Token> := Split(normalized, '.'), [];
    assert parts[..|parts|] == parts && PartsTokens(parts[..0]) == Some([]);
    hide PartTokens, PartsTokens, Split, TrimSpace, TrimPrefix;
    for i := 0 to |parts|
      invariant PartsTokens(parts[..i]) == Some(done)
    {
      PartsStep(parts, i);
      if parts[i] == "" {
        FailedPartsFail(parts, i + 1);
        return None;
      }
      var more := ParsePart(parts[i]);
      if more.None? {
        FailedPartsFail(parts, i + 1);
        return None;
      }
      done := done + more.value;
    }
    return Some(done);
  }

  // --- Answers -----------------------------------------------------------------------------------

  // jsonValueString of the filter; marshal is the encoding of containers.
  function FilterText(v: Json, marshal: Json -> string): string {
    match v
    case Null => ""
    case String(s) => s
    case Number(text) => text
    case Bool(b) => if b then "true" else "false"
    case _ => marshal(v)
  }

  // jsonValueString of the digest.
  function DigestText(v: Json, marshal: Json -> string): string {
    match v
    case Null => "null"
    case String(s) => s
    case Bool(b) => if b then "true" else "false"
    case Number(text) => text
    case _ => marshal(v)
  }

  predicate BlankPath(path: string) { TrimSpace(path) == "" || TrimSpace(path) == "$" }

  // jsonPathValue: the data is absent, or bytes that decode as JSON or do not.
  function FilterAnswer(data: Option<string>, decoded: Option<Json>, path: string,
                        marshal: Json -> string): Option<string> {
    if BlankPath(path) then data
    else if decoded.None? then None
    else
      match FindAll(decoded.value, FilterTokens(path))
      case None => None
      case Some(v) => Some(FilterText(v, marshal))
  }

  // jsonPathLookup on what the text decodes to; a text that is no JSON has no fields.
  function DigestAnswer(decoded: Option<Json>, path: string, marshal: Json -> string): Option<string> {
    if decoded.None? then None
    else
      match FindAll(decoded.value, DigestTokens(path))
      case None => None
      case Some(v) => Some(DigestText(v, marshal))
  }

  lemma {:induction false} FindCat(root: Json, a: seq<Token>, b: seq<Token>)
    ensures Find(root, a + b) == match Find(root, a) case None => None case Some(v) => Find(v, b)
  {
    hide Step;
    if b == [] {
      assert a + b == a;
    } else {
      assert (a + b)[..|a + b| - 1] == a + b[..|b| - 1];
      FindCat(root, a, b[..|b| - 1]);
    }
  }

  method WalkTokens(root: Json, tokens: seq<Token>) returns (r: Option<Json>)
    ensures r == Find(root, tokens)
  {
    hide Step;
    var current := root;
    assert tokens[..|tokens|] == tokens;
    for i := 0 to |tokens|
      invariant Find(root, tokens[..i]) == Some(current)
    {
      assert tokens == tokens[..i + 1] + tokens[i + 1..] && tokens[..i + 1][..i] == tokens[..i];
      FindCat(root, tokens[..i + 1], tokens[i + 1..]);
      var next := Step(current, tokens[i]);
      if next.None? { return None; }
      current := next.value;
    }
    return Some(current);
  }

  method JsonPathValue(data: Option<string>, decoded: Option<Json>, path: string,
                       marshal: Json -> string) returns (r: Option<string>)
    ensures r == FilterAnswer(data, decoded, path, marshal)
  {
    if TrimSpace(path) == "" || TrimSpace(path) == "$" { return data; }
    if decoded.None? { return None; }
    var tokens := ParseJsonPath(path);
    if tokens.None? { return None; }
    var found := WalkTokens(decoded.value, tokens.value);
    return match found case None => None case Some(v) => Some(FilterText(v, marshal));
  }

  lemma SegmentStep(root: Json, segments: seq<string>, i: nat)
    requires i < |segments|
    ensures FindAll(root, SegmentsTokens(segments[..i + 1])) ==
            match FindAll(root, SegmentsTokens(segments[..i]))
            case None => None
            case Some(v) => FindAll(v, SegmentTokens(segments[i]))
  {
    hide SegmentTokens, Find;
    assert segments[..i + 1][..i] == segments[..i];
    if SegmentsTokens(segments[..i]).Some? && SegmentTokens(segments[i]).Some? {
      FindCat(root, SegmentsTokens(segments[..i]).value, SegmentTokens(segments[i]).value);
    }
  }

  lemma {:induction false} FailedSegmentsFail(root: Json, segments: seq<string>, n: nat)
    requires n <= |segments| && FindAll(root, SegmentsTokens(segments[..n])).None?
    ensures FindAll(root, SegmentsTokens(segments)).None?
    decreases |segments| - n
  {
    hide SegmentsTokens, FindAll;
    if n == |segments| {
      assert segments[..n] == segments;
    } else {
      SegmentStep(root, segments, n);
      FailedSegmentsFail(root, segments, n + 1);
    }
  }

  // One segment of the lookup.
  method LookupSegment(value: Json, segment: string) returns (r: Option<Json>)
    ensures r == FindAll(value, SegmentTokens(segment))
  {
    hide SplitIndexSuffix;
    var current := value;
    var (name, index) := SplitIndexSuffix(segment);
    FindFew(value, name, if index.Some? then index.value else 0);
    if name != "" {
      if !current.Object? || name !in current.fields { return None; }
      current := current.fields[name];
    }
    if index.Some? {
      if !current.Array? || index.value < 0 || index.value >= |current.items| { return None; }
      current := current.items[index.value];
    }
    if name == "" && index.None? { return None; }
    return Some(current);
  }

  lemma FindFew(v: Json, name: string, i: int)
    ensures Find(v, []) == Some(v)
    ensures Find(v, [Key(name)]) == Step(v, Key(name)) && Find(v, [Index(i)]) == Step(v, Index(i))
    ensures Find(v, [Key(name)] + [Index(i)]) ==
            match Step(v, Key(name)) case None => None case Some(w) => Step(w, Index(i))
  {
    hide Step;
    assert Find(v, []) == Some(v);
    forall w: Json, t: Token ensures Find(w, [t]) == Step(w, t) {
      assert [t][..0] == [] && Find(w, []) == Some(w);
    }
    FindCat(v, [Key(name)], [Index(i)]);
  }

  method JsonPathLookup(root: Json, path: string, marshal: Json -> string) returns (r: Option<string>)
    ensures r == DigestAnswer(Some(root), path, marshal)
  {
    hide SegmentsTokens, SegmentTokens, Find, DigestText, TrimSpace, TrimPrefix, Split;
    var segments, current := DigestSegments(path), root;
    assert segments[..|segments|] == segments;
    NoSegments(root, segments);
    for i := 0 to |segments|
      invariant FindAll(root, SegmentsTokens(segments[..i])) == Some(current)
    {
      SegmentStep(root, segments, i);
      var next := LookupSegment(current, segments[i]);
      if next.None? {
        FailedSegmentsFail(root, segments, i + 1);
        return None;
      }
      current := next.value;
    }
    return Some(DigestText(current, marshal));
  }

  lemma NoSegments(root: Json, segments: seq<string>)
    ensures FindAll(root, SegmentsTokens(segments[..0])) == Some(root)
  {
  }

  // --- Equal steps, equal answers ----------------------------------------------------------------

  // A value that holds the leaf at the end of these steps and nowhere else.
  function Nest(tokens: seq<Token>, leaf: Json): Json {
    if tokens == [] then leaf
    else
      match tokens[0]
      case Key(k) => Object(map[k := Nest(tokens[1..], leaf)])
      case Index(i) => Array(seq(Max(i, 0), _ => Null) + [Nest(tokens[1..], leaf)])
  }

  const LEAF := Bool(true)

  ghost predicate Walkable(tokens: seq<Token>) {
    forall i :: 0 <= i < |tokens| ==> tokens[i].Index? ==> 0 <= tokens[i].index
  }

  lemma {:induction false} NestTellsStepsApart(tokens: seq<Token>, others: seq<Token>)
    requires Walkable(tokens)
    ensures Find(Nest(tokens, LEAF), others) == Some(LEAF) <==> tokens == others
  {
    var root := Nest(tokens, LEAF);
    if others == [] {
    } else {
      var first, rest := others[0], others[1..];
      assert others == [first] + rest;
      FindCat(root, [first], rest);
      FindOne(root, first);
      if tokens == [] {
      } else if first == tokens[0] {
        assert Step(root, first) == Some(Nest(tokens[1..], LEAF));
        NestTellsStepsApart(tokens[1..], rest);
        assert tokens == [tokens[0]] + tokens[1..];
      } else {
        assert Step(root, first).None? || Step(root, first) == Some(Null);
        NothingInNull(rest);
      }
    }
  }

  lemma FindOne(v: Json, t: Token)
    ensures Find(v, [t]) == Step(v, t)
  {
    assert [t][..0] == [] && Find(v, []) == Some(v);
  }

  lemma {:induction false} NothingInNull(tokens: seq<Token>)
    ensures Find(Null, tokens) != Some(LEAF)
    ensures Find(Null, tokens) == Some(Null) || Find(Null, tokens).None?
  {
    if tokens != [] {
      NothingInNull(tokens[..|tokens| - 1]);
    }
  }
}
