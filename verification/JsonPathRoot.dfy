/**
 The answers of the two evaluators at a blank path or the dollar: the filter gives the raw
 text (backend/internal/kafkaconn/messages.go), the digest the text of what it decodes to
 (backend/internal/mcp/digest.go).
 */
module JsonPathRoot {
  import opened Basics
  import opened JsonPath
  import opened JsonPathAgreement

  // --- How a text decodes --------------------------------------------------------------------------

  const JSON_SPACES := {' ', '\t', '\n', '\r'}

  function Trimmed(data: string): string { TrimRight(TrimLeft(data, JSON_SPACES), JSON_SPACES) }

  predicate IsSurrogate(v: int, low: bool) { if low then 0xDC00 <= v < 0xE000 else 0xD800 <= v < 0xDC00 }

  const REPLACEMENT := '\U{FFFD}'

  function CharOf(v: nat): char
    requires v < 0x1_0000
  {
    if 0xD800 <= v < 0xE000 then REPLACEMENT else v as char
  }

  // A pair of surrogates; the escapes stand for one character.
  function PairOf(high: nat, low: nat): char
    requires IsSurrogate(high, false) && IsSurrogate(low, true)
  {
    (0x1_0000 + (high - 0xD800) * 1024 + (low - 0xDC00)) as char
  }

  // The letter behind a backslash, for the escapes of one letter.
  function Letter(c: char): Option<char> {
    if c == '"' || c == '\\' || c == '/' then Some(c)
    else if c == 'b' then Some('\U{8}')
    else if c == 'f' then Some('\U{C}')
    else if c == 'n' then Some('\n')
    else if c == 'r' then Some('\r')
    else if c == 't' then Some('\t')
    else None
  }

  // The first character of what stands between the quotes, and the number of characters it takes.
  function FirstChar(body: string): (r: Option<(char, nat)>)
    ensures r.Some? ==> 0 < r.value.1 <= |body|
  {
    if body == "" || body[0] == '"' || body[0] < ' ' then None
    else if body[0] != '\\' then Some((body[0], 1))
    else if |body| < 2 then None
    else if body[1] != 'u' then (match Letter(body[1]) case None => None case Some(c) => Some((c, 2)))
    else if |body| < 6 || !IsHex4(body[2..6]) then None
    else
      var v := Hex4(body[2..6]);
      if IsSurrogate(v, false) && |body| >= 12 && body[6] == '\\' && body[7] == 'u' && IsHex4(body[8..12])
         && IsSurrogate(Hex4(body[8..12]), true)
      then Some((PairOf(v, Hex4(body[8..12])), 12))
      else Some((CharOf(v), 6))
  }

  function Unquoted(body: string): Option<string>
    decreases |body|
  {
    if body == "" then Some("")
    else
      match FirstChar(body)
      case None => None
      case Some(first) =>
        match Unquoted(body[first.1..]) case None => None case Some(rest) => Some([first.0] + rest)
  }

  // The text decodes to the value. A number prints as `format` of its token; a container starts
  // with its bracket.
  ghost predicate Denotes(data: string, root: Json, format: string -> string) {
    var t := Trimmed(data);
    match root
    case Null => t == "null"
    case Bool(b) => t == if b then "true" else "false"
    case String(s) => |t| >= 2 && t[0] == '"' == t[|t| - 1] && Unquoted(t[1..|t| - 1]) == Some(s)
    case Number(text) => t != "" && (t[0] == '-' || IsDigitChar(t[0])) && text == format(t)
    case Array(_) => t != "" && t[0] == '['
    case Object(_) => t != "" && t[0] == '{'
  }

  // --- When the raw text is the digest's -----------------------------------------------------------

  lemma {:induction false} UnquotedIsNoLonger(body: string)
    ensures Unquoted(body).Some? ==> |Unquoted(body).value| <= |body|
    decreases |body|
  {
    hide FirstChar;
    if body != "" && FirstChar(body).Some? {
      UnquotedIsNoLonger(body[FirstChar(body).value.1..]);
    }
  }

  lemma {:induction false} TrimmedIsNoLonger(s: string)
    ensures |TrimLeft(s, JSON_SPACES)| <= |s| && |TrimRight(s, JSON_SPACES)| <= |s|
    decreases |s|
  {
    hide JSON_SPACES;
    if s != "" {
      TrimmedIsNoLonger(s[1..]);
      TrimmedIsNoLonger(s[..|s| - 1]);
    }
  }

  // No blank before or behind.
  predicate Bare(data: string) { data != "" && data[0] !in JSON_SPACES && data[|data| - 1] !in JSON_SPACES }

  lemma BareIsTrimmed(data: string)
    ensures Trimmed(data) == data <==> data == "" || Bare(data)
  {
    hide JSON_SPACES;
    if data != "" && data[0] in JSON_SPACES {
      TrimmedIsNoLonger(data[1..]);
      TrimmedIsNoLonger(TrimLeft(data, JSON_SPACES));
    } else if data != "" && data[|data| - 1] in JSON_SPACES {
      TrimmedIsNoLonger(data[..|data| - 1]);
    }
  }

  /**
   At the root a string is never answered alike, for the raw text has its quotes; null, true
   and false are when no blank surrounds them; a number is when it is written as it prints, and
   a container when it is written as it is encoded. A text that is no JSON is answered by the
   filter alone.
   */
  lemma RootAnswersAgreeIff(data: string, root: Json, path: string, marshal: Json -> string, format: string -> string)
    requires BlankPath(path) && Denotes(data, root, format)
    ensures SameAnswer(Some(data), Some(root), path, marshal) <==>
            match root
            case String(_) => false
            case Null => Bare(data)
            case Bool(_) => Bare(data)
            case Number(_) => data == format(Trimmed(data))
            case _ => data == marshal(root)
    ensures !SameAnswer(Some(data), None, path, marshal) && SameAnswer(None, None, path, marshal)
  {
    BlankHasNoSteps(path);
    BareIsTrimmed(data);
    TrimmedIsNoLonger(data);
    TrimmedIsNoLonger(TrimLeft(data, JSON_SPACES));
    var t := Trimmed(data);
    hide Trimmed, JSON_SPACES, Bare, BlankPath, DigestTokens, Unquoted;
    assert FindAll(root, Some([])) == Some(root);
    if root.String? {
      UnquotedIsNoLonger(t[1..|t| - 1]);
      assert |root.s| < |data|;
    }
  }
}
