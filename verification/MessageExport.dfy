/**
 Message export (frontend/src/lib/messageExport.ts): CSV and TSV writers, each with a reader
 that recovers the table it was written from.
 */
module MessageExport {
  import opened Basics

  // --- Messages and rows -------------------------------------------------------------------------

  // The value is the text decoded for the export; headers come in the
  // order of Object.entries.
  datatype Message = Message(topic: string, partition: int, offset: int, timestamp: int, key: Option<string>,
                             value: string, headers: Option<seq<(string, string)>>)

  const COLUMNS := ["topic", "partition", "offset", "timestamp", "key", "value", "headers"]

  // Array.join.
  function JoinText(parts: seq<string>, separator: string): string {
    if parts == [] then ""
    else if |parts| == 1 then parts[0]
    else parts[0] + separator + JoinText(parts[1..], separator)
  }

  function HeaderTexts(headers: seq<(string, string)>): seq<string> {
    seq(|headers|, i requires 0 <= i < |headers| => headers[i].0 + "=" + headers[i].1)
  }

  function HeadersText(m: Message): string {
    match m.headers case Some(headers) => JoinText(HeaderTexts(headers), "; ") case None => ""
  }

  function Fields(m: Message): (r: seq<string>)
    ensures |r| == |COLUMNS|
  {
    [m.topic, IntText(m.partition), IntText(m.offset), IntText(m.timestamp),
     match m.key case Some(k) => k case None => "", m.value, HeadersText(m)]
  }

  // What stands in a column, by its name.
  ghost function Shown(column: string, m: Message): string {
    if column == "topic" then m.topic
    else if column == "partition" then IntText(m.partition)
    else if column == "offset" then IntText(m.offset)
    else if column == "timestamp" then IntText(m.timestamp)
    else if column == "key" then (if m.key.Some? then m.key.value else "")
    else if column == "value" then m.value
    else if column == "headers" then HeadersText(m)
    else ""
  }

  /** Every value stands under the name of its column. */
  lemma EachValueUnderItsName(messages: seq<Message>, i: nat, column: string)
    requires i < |messages|
    requires column in ["topic", "partition", "offset", "timestamp", "key", "value", "headers"]
    ensures var table := Table(messages);
            && |table| == |messages| + 1
            && exists k :: 0 <= k < |table[0]| == |table[i + 1]|
                 && table[0][k] == column && table[i + 1][k] == Shown(column, messages[i])
  {
    hide IntText, HeadersText;
    var k :| 0 <= k < |COLUMNS| && COLUMNS[k] == column;
    assert Fields(messages[i])[k] == Shown(column, messages[i]);
    var table := Table(messages);
    assert table[0] == COLUMNS && table[i + 1] == Fields(messages[i]);
  }

  function Table(messages: seq<Message>): seq<seq<string>> {
    [COLUMNS] + seq(|messages|, i requires 0 <= i < |messages| => Fields(messages[i]))
  }

  /** Headers are written as name=value in their order, with a semicolon and a space between them. */
  lemma HeadersAreListed(m: Message, headers: seq<(string, string)>, last: (string, string))
    ensures HeadersText(m.(headers := None)) == HeadersText(m.(headers := Some([]))) == ""
    ensures HeadersText(m.(headers := Some([last]))) == last.0 + "=" + last.1
    ensures headers != [] ==>
              HeadersText(m.(headers := Some(headers + [last]))) ==
              HeadersText(m.(headers := Some(headers))) + "; " + last.0 + "=" + last.1
  {
    var one := last.0 + "=" + last.1;
    assert HeaderTexts([last]) == [one];
    assert HeaderTexts(headers + [last]) == HeaderTexts(headers) + [one];
    if headers != [] {
      JoinTextLast(HeaderTexts(headers), one, "; ");
    }
  }

  lemma {:induction false} JoinTextLast(parts: seq<string>, last: string, separator: string)
    requires parts != []
    ensures JoinText(parts + [last], separator) == JoinText(parts, separator) + separator + last
  {
    assert (parts + [last])[1..] == parts[1..] + [last];
    if |parts| > 1 {
      JoinTextLast(parts[1..], last, separator);
      assert JoinText(parts + [last], separator)
          == parts[0] + separator + (JoinText(parts[1..], separator) + separator + last);
    } else {
      assert JoinText([last], separator) == last;
    }
  }

  function Map(f: string -> string, row: seq<string>): (r: seq<string>)
    ensures |r| == |row|
  {
    seq(|row|, i requires 0 <= i < |row| => f(row[i]))
  }

  // --- Escapes -----------------------------------------------------------------------------------

  // String.replace with a global pattern of one character.
  function Replace(s: string, c: char, with: string): string {
    if s == "" then "" else (if s[0] == c then with else [s[0]]) + Replace(s[1..], c, with)
  }

  const QUOTE := '"'

  predicate NeedsQuotes(c: char) { c == QUOTE || c == ',' || c == '\n' || c == '\r' }

  function CsvEscape(value: string): string {
    if exists i :: 0 <= i < |value| && NeedsQuotes(value[i])
    then [QUOTE] + Replace(value, QUOTE, [QUOTE, QUOTE]) + [QUOTE]
    else value
  }

  function TsvEscape(value: string): string {
    Replace(Replace(Replace(Replace(value, '\\', "\\\\"), '\t', "\\t"), '\n', "\\n"), '\r', "\\r")
  }

  // --- Writers -----------------------------------------------------------------------------------

  function Lines(rows: seq<seq<string>>, escape: string -> string, separator: char): seq<string> {
    seq(|rows|, i requires 0 <= i < |rows| => Join(Map(escape, rows[i]), separator))
  }

  // The lines written for the first i messages.
  ghost predicate Written(messages: seq<Message>, i: nat, escape: string -> string, separator: char,
                          lines: seq<string>) {
    i <= |messages| && lines == Lines(Table(messages[..i]), escape, separator)
  }

  lemma WrittenStep(messages: seq<Message>, i: nat, escape: string -> string, separator: char, lines: seq<string>)
    requires i < |messages| && Written(messages, i, escape, separator, lines)
    ensures Written(messages, i + 1, escape, separator, lines + [Join(Map(escape, Fields(messages[i])), separator)])
  {
    hide Fields, Join, Map;
    assert Table(messages[..i + 1]) == Table(messages[..i]) + [Fields(messages[i])];
  }

  lemma WrittenEnds(messages: seq<Message>, escape: string -> string, separator: char, lines: seq<string>)
    requires Map(escape, COLUMNS) == COLUMNS
    ensures Written(messages, 0, escape, separator, [Join(COLUMNS, separator)])
    ensures Written(messages, |messages|, escape, separator, lines) ==>
              lines == Lines(Table(messages), escape, separator)
    ensures Table(messages) != [] && forall row :: row in Table(messages) ==> |row| == |COLUMNS|
  {
    hide Fields, Join, Map;
    assert messages[..|messages|] == messages;
    assert Table(messages[..0]) == [COLUMNS];
  }

  method SerializeMessagesToCsv(messages: seq<Message>) returns (text: string)
    ensures text == JoinText(Lines(Table(messages), CsvEscape, ','), "\r\n")
    ensures ReadCsv(text) == Some(Table(messages))
  {
    PlainColumns();
    assert |COLUMNS| == 7;
    hide *;
    var lines := [Join(COLUMNS, ',')];
    WrittenEnds(messages, CsvEscape, ',', lines);
    for i := 0 to |messages|
      invariant Written(messages, i, CsvEscape, ',', lines)
    {
      WrittenStep(messages, i, CsvEscape, ',', lines);
      lines := lines + [Join(Map(CsvEscape, Fields(messages[i])), ',')];
    }
    WrittenEnds(messages, CsvEscape, ',', lines);
    CsvReadsBack(Table(messages));
    return JoinText(lines, "\r\n");
  }

  method SerializeMessagesToTsv(messages: seq<Message>) returns (text: string)
    ensures text == JoinText(Lines(Table(messages), TsvEscape, '\t'), "\r\n")
    ensures ReadTsv(text) == Table(messages)
  {
    PlainColumns();
    assert |COLUMNS| == 7;
    hide *;
    var lines := [Join(COLUMNS, '\t')];
    WrittenEnds(messages, TsvEscape, '\t', lines);
    for i := 0 to |messages|
      invariant Written(messages, i, TsvEscape, '\t', lines)
    {
      WrittenStep(messages, i, TsvEscape, '\t', lines);
      lines := lines + [Join(Map(TsvEscape, Fields(messages[i])), '\t')];
    }
    WrittenEnds(messages, TsvEscape, '\t', lines);
    TsvReadsBack(Table(messages));
    return JoinText(lines, "\r\n");
  }

  lemma {:induction false} ReplaceNothing(s: string, c: char, with: string)
    requires c !in s
    ensures Replace(s, c, with) == s
  {
    if s != "" {
      assert s[0] in s;
      ReplaceNothing(s[1..], c, with);
    }
  }

  /** A field is quoted exactly when it holds a quote, a comma or a line break. */
  lemma QuotedIff(value: string)
    ensures CsvEscape(value) == value <==>
            '"' !in value && ',' !in value && '\n' !in value && '\r' !in value
  {
    if i :| 0 <= i < |value| && NeedsQuotes(value[i]) {
      assert value[i] in value;
      ReplaceGrows(value, QUOTE, [QUOTE, QUOTE]);
    }
  }

  lemma {:induction false} ReplaceGrows(s: string, c: char, with: string)
    requires |with| >= 1
    ensures |Replace(s, c, with)| >= |s|
  {
    if s != "" {
      ReplaceGrows(s[1..], c, with);
    }
  }

  predicate LowerCase(s: string) { forall i :: 0 <= i < |s| ==> 'a' <= s[i] <= 'z' }

  lemma PlainField(s: string)
    requires LowerCase(s)
    ensures CsvEscape(s) == s && TsvEscape(s) == s
  {
    ReplaceNothing(s, '\\', "\\\\");
    ReplaceNothing(s, '\t', "\\t");
    ReplaceNothing(s, '\n', "\\n");
    ReplaceNothing(s, '\r', "\\r");
  }

  lemma ColumnsAreLowerCase()
    ensures forall i :: 0 <= i < |COLUMNS| ==> LowerCase(COLUMNS[i])
  {
  }

  // The header is written as it is.
  lemma PlainColumns()
    ensures Map(CsvEscape, COLUMNS) == COLUMNS && Map(TsvEscape, COLUMNS) == COLUMNS
  {
    ColumnsAreLowerCase();
    hide CsvEscape, TsvEscape, LowerCase, COLUMNS;
    forall i | 0 <= i < |COLUMNS| ensures CsvEscape(COLUMNS[i]) == COLUMNS[i] == TsvEscape(COLUMNS[i]) {
      PlainField(COLUMNS[i]);
    }
  }

  // --- A CSV reader: section 2 of RFC 4180 -------------------------------------------------------

  // The inside of a quoted field, and what follows its closing quote.
  function ReadQuoted(t: string): (r: Option<(string, string)>)
    ensures r.Some? ==> |r.value.1| < |t|
  {
    if t == "" then None
    else if t[0] != QUOTE then
      match ReadQuoted(t[1..]) case None => None case Some(q) => Some(([t[0]] + q.0, q.1))
    else if |t| > 1 && t[1] == QUOTE then
      match ReadQuoted(t[2..]) case None => None case Some(q) => Some(([QUOTE] + q.0, q.1))
    else Some(("", t[1..]))
  }

  // A field without quotes.
  function ReadPlain(t: string): (r: (string, string))
    ensures |r.1| <= |t|
  {
    if t == "" || NeedsQuotes(t[0]) then ("", t)
    else
      var p := ReadPlain(t[1..]);
      ([t[0]] + p.0, p.1)
  }

  function ReadField(t: string): (r: Option<(string, string)>)
    ensures r.Some? ==> |r.value.1| <= |t|
  {
    if t != "" && t[0] == QUOTE then ReadQuoted(t[1..]) else Some(ReadPlain(t))
  }

  function ReadRecord(t: string): (r: Option<(seq<string>, string)>)
    ensures r.Some? ==> |r.value.1| <= |t|
    decreases |t|
  {
    match ReadField(t)
    case None => None
    case Some(f) =>
      if f.1 != "" && f.1[0] == ',' then
        match ReadRecord(f.1[1..]) case None => None case Some(rest) => Some(([f.0] + rest.0, rest.1))
      else Some(([f.0], f.1))
  }

  // Records with a line break after each; it may be missing after the last.
  function ReadCsv(t: string): Option<seq<seq<string>>>
    decreases |t|
  {
    match ReadRecord(t)
    case None => None
    case Some(record) =>
      if record.1 == "" || record.1 == "\r\n" then Some([record.0])
      else if |record.1| > 2 && record.1[0] == '\r' && record.1[1] == '\n' then
        match ReadCsv(record.1[2..]) case None => None case Some(rest) => Some([record.0] + rest)
      else None
  }

  // What may follow a field.
  predicate EndsField(rest: string) { rest != "" ==> rest[0] == ',' || rest[0] == '\r' }

  lemma {:induction false} QuotedReadsBack(value: string, rest: string)
    requires EndsField(rest)
    ensures ReadQuoted(Replace(value, QUOTE, [QUOTE, QUOTE]) + [QUOTE] + rest) == Some((value, rest))
  {
    if value == "" {
      assert "" + [QUOTE] + rest == [QUOTE] + rest;
      assert ([QUOTE] + rest)[1..] == rest;
    } else {
      var head := if value[0] == QUOTE then [QUOTE, QUOTE] else [value[0]];
      var tail := Replace(value[1..], QUOTE, [QUOTE, QUOTE]) + [QUOTE] + rest;
      QuotedReadsBack(value[1..], rest);
      assert Replace(value, QUOTE, [QUOTE, QUOTE]) + [QUOTE] + rest == head + tail;
      assert (head + tail)[|head|..] == tail;
      assert [value[0]] + value[1..] == value;
    }
  }

  lemma {:induction false} PlainReadsBack(value: string, rest: string)
    requires EndsField(rest) && forall i :: 0 <= i < |value| ==> !NeedsQuotes(value[i])
    ensures ReadPlain(value + rest) == (value, rest)
  {
    if value == "" {
      assert value + rest == rest;
    } else {
      PlainReadsBack(value[1..], rest);
      assert (value + rest)[1..] == value[1..] + rest;
      assert [value[0]] + value[1..] == value;
    }
  }

  lemma FieldReadsBack(value: string, rest: string)
    requires EndsField(rest)
    ensures ReadField(CsvEscape(value) + rest) == Some((value, rest))
  {
    if exists i :: 0 <= i < |value| && NeedsQuotes(value[i]) {
      var body := Replace(value, QUOTE, [QUOTE, QUOTE]) + [QUOTE] + rest;
      QuotedReadsBack(value, rest);
      assert CsvEscape(value) + rest == [QUOTE] + body;
      assert ([QUOTE] + body)[1..] == body;
    } else {
      PlainReadsBack(value, rest);
      assert value != "" ==> (value + rest)[0] == value[0];
    }
  }

  lemma {:induction false} RecordReadsBack(row: seq<string>, rest: string)
    requires row != [] && (rest != "" ==> rest[0] == '\r')
    ensures ReadRecord(Join(Map(CsvEscape, row), ',') + rest) == Some((row, rest))
  {
    hide CsvEscape, ReadField;
    var escaped := Map(CsvEscape, row);
    if |row| == 1 {
      FieldReadsBack(row[0], rest);
      assert Join(escaped, ',') == CsvEscape(row[0]) && [row[0]] == row;
    } else {
      var tail := Join(Map(CsvEscape, row[1..]), ',') + rest;
      assert escaped[1..] == Map(CsvEscape, row[1..]);
      RecordReadsBack(row[1..], rest);
      FieldReadsBack(row[0], [','] + tail);
      assert Join(escaped, ',') + rest == CsvEscape(row[0]) + ([','] + tail);
      assert ([','] + tail)[1..] == tail;
      assert [row[0]] + row[1..] == row;
    }
  }

  lemma LongRowHasText(row: seq<string>, separator: char)
    requires |row| > 1
    ensures Join(row, separator) != ""
  {
  }

  /** Every table of at least two columns is read back from what is written for it. */
  lemma {:induction false} CsvReadsBack(rows: seq<seq<string>>)
    requires rows != [] && forall row :: row in rows ==> |row| > 1
    ensures ReadCsv(JoinText(Lines(rows, CsvEscape, ','), "\r\n")) == Some(rows)
  {
    hide Join, Map, CsvEscape, ReadRecord;
    var lines := Lines(rows, CsvEscape, ',');
    assert rows[0] in rows;
    if |rows| == 1 {
      RecordReadsBack(rows[0], "");
      assert lines[0] + "" == lines[0];
      assert rows == [rows[0]];
    } else {
      var tail := JoinText(Lines(rows[1..], CsvEscape, ','), "\r\n");
      assert lines[1..] == Lines(rows[1..], CsvEscape, ',');
      CsvReadsBack(rows[1..]);
      RecordReadsBack(rows[0], "\r\n" + tail);
      assert lines[0] + "\r\n" + tail == lines[0] + ("\r\n" + tail);
      assert rows[1] in rows;
      LongRowHasText(Map(CsvEscape, rows[1]), ',');
      assert |Map(CsvEscape, rows[1])| > 1;
      assert ("\r\n" + tail)[2..] == tail;
      assert [rows[0]] + rows[1..] == rows;
    }
  }

  // --- A TSV reader ------------------------------------------------------------------------------

  function EscapeChar(c: char): (e: string)
    ensures e != "" && '\t' !in e && '\n' !in e && '\r' !in e
  {
    if c == '\\' then "\\\\"
    else if c == '\t' then "\\t"
    else if c == '\n' then "\\n"
    else if c == '\r' then "\\r"
    else [c]
  }

  function EscapeChars(s: string): string { if s == "" then "" else EscapeChar(s[0]) + EscapeChars(s[1..]) }

  function Unescape(t: string): string {
    if t == "" then ""
    else if t[0] == '\\' && |t| > 1 then
      [if t[1] == 't' then '\t' else if t[1] == 'n' then '\n' else if t[1] == 'r' then '\r' else t[1]]
      + Unescape(t[2..])
    else [t[0]] + Unescape(t[1..])
  }

  lemma {:induction false} ReplaceCat(a: string, b: string, c: char, with: string)
    ensures Replace(a + b, c, with) == Replace(a, c, with) + Replace(b, c, with)
  {
    if a == "" {
      assert a + b == b;
    } else {
      assert (a + b)[1..] == a[1..] + b;
      ReplaceCat(a[1..], b, c, with);
    }
  }

  lemma ReplaceOne(x: char, c: char, with: string)
    ensures Replace([x], c, with) == if x == c then with else [x]
  {
    assert Replace("", c, with) == "";
  }

  lemma ReplaceTwo(x: char, y: char, c: char, with: string)
    requires x != c && y != c
    ensures Replace([x, y], c, with) == [x, y]
  {
    ReplaceNothing([x, y], c, with);
  }

  // The four passes on one character: no later pass touches what an earlier one wrote.
  lemma PassesOnOne(c: char)
    ensures TsvEscape([c]) == EscapeChar(c)
  {
    ReplaceOne(c, '\\', "\\\\");
    ReplaceOne(c, '\t', "\\t");
    ReplaceOne(c, '\n', "\\n");
    ReplaceOne(c, '\r', "\\r");
    ReplaceTwo('\\', '\\', '\t', "\\t");
    ReplaceTwo('\\', '\\', '\n', "\\n");
    ReplaceTwo('\\', '\\', '\r', "\\r");
    ReplaceTwo('\\', 't', '\n', "\\n");
    ReplaceTwo('\\', 't', '\r', "\\r");
    ReplaceTwo('\\', 'n', '\r', "\\r");
  }

  lemma PassesCat(a: string, b: string)
    ensures TsvEscape(a + b) == TsvEscape(a) + TsvEscape(b)
  {
    hide Replace;
    var a1, b1 := Replace(a, '\\', "\\\\"), Replace(b, '\\', "\\\\");
    var a2, b2 := Replace(a1, '\t', "\\t"), Replace(b1, '\t', "\\t");
    var a3, b3 := Replace(a2, '\n', "\\n"), Replace(b2, '\n', "\\n");
    ReplaceCat(a, b, '\\', "\\\\");
    ReplaceCat(a1, b1, '\t', "\\t");
    ReplaceCat(a2, b2, '\n', "\\n");
    ReplaceCat(a3, b3, '\r', "\\r");
  }

  /** The four chained replacements are one character-wise escape; it leaves no separator and can be undone. */
  lemma {:induction false} TsvEscapeIsCharacterwise(s: string)
    ensures TsvEscape(s) == EscapeChars(s)
    ensures '\t' !in TsvEscape(s) && '\n' !in TsvEscape(s) && '\r' !in TsvEscape(s)
    ensures Unescape(TsvEscape(s)) == s
  {
    if s != "" {
      PassesOnOne(s[0]);
      PassesCat([s[0]], s[1..]);
      hide TsvEscape;
      assert [s[0]] + s[1..] == s;
      TsvEscapeIsCharacterwise(s[1..]);
      var e := EscapeChar(s[0]);
      assert (e + EscapeChars(s[1..]))[|e|..] == EscapeChars(s[1..]);
    }
  }

  // Lines are separated by a carriage return and a line feed.
  function SplitLines(t: string): (r: seq<string>)
    ensures r != []
  {
    if t == "" then [""]
    else if |t| > 1 && t[0] == '\r' && t[1] == '\n' then [""] + SplitLines(t[2..])
    else
      var rest := SplitLines(t[1..]);
      [[t[0]] + rest[0]] + rest[1..]
  }

  function ReadTsv(t: string): seq<seq<string>> {
    var lines := SplitLines(t);
    seq(|lines|, i requires 0 <= i < |lines| => Map(Unescape, Split(lines[i], '\t')))
  }

  lemma {:induction false} SplitLinesOnce(head: string, tail: string)
    requires '\r' !in head
    ensures SplitLines(head + ("\r\n" + tail)) == [head] + SplitLines(tail)
    ensures SplitLines(head) == [head]
  {
    if head == "" {
      assert head + ("\r\n" + tail) == "\r\n" + tail;
      assert ("\r\n" + tail)[2..] == tail;
    } else {
      assert head == [head[0]] + head[1..] && head[0] in head;
      assert (head + ("\r\n" + tail))[1..] == head[1..] + ("\r\n" + tail);
      SplitLinesOnce(head[1..], tail);
    }
  }

  lemma {:induction false} SplitLinesJoin(lines: seq<string>)
    requires lines != [] && Without(lines, '\r')
    ensures SplitLines(JoinText(lines, "\r\n")) == lines
  {
    if |lines| == 1 {
      SplitLinesOnce(lines[0], "");
    } else {
      SplitLinesJoin(lines[1..]);
      SplitLinesOnce(lines[0], JoinText(lines[1..], "\r\n"));
      CatAssociates(lines[0], "\r\n", JoinText(lines[1..], "\r\n"));
    }
  }

  lemma {:induction false} JoinClean(parts: seq<string>, separator: char, c: char)
    requires Without(parts, c) && separator != c
    ensures c !in Join(parts, separator)
  {
    if |parts| > 1 {
      JoinClean(parts[1..], separator, c);
    }
  }

  lemma TsvRowReadsBack(row: seq<string>)
    requires row != []
    ensures Map(Unescape, Split(Join(Map(TsvEscape, row), '\t'), '\t')) == row
    ensures '\r' !in Join(Map(TsvEscape, row), '\t')
  {
    hide TsvEscape, Unescape, Split, Join;
    var escaped := Map(TsvEscape, row);
    forall i | 0 <= i < |row|
      ensures '\t' !in escaped[i] && '\r' !in escaped[i] && Unescape(escaped[i]) == row[i]
    {
      TsvEscapeIsCharacterwise(row[i]);
    }
    JoinClean(escaped, '\t', '\r');
    SplitJoin(escaped, '\t');
  }

  /** Every table without an empty row is read back from what is written for it. */
  lemma TsvReadsBack(rows: seq<seq<string>>)
    requires rows != [] && forall row :: row in rows ==> row != []
    ensures ReadTsv(JoinText(Lines(rows, TsvEscape, '\t'), "\r\n")) == rows
  {
    hide TsvEscape, Unescape, Split, Join, Map, JoinText, SplitLines;
    var lines := Lines(rows, TsvEscape, '\t');
    forall i | 0 <= i < |rows|
      ensures '\r' !in lines[i] && Map(Unescape, Split(lines[i], '\t')) == rows[i]
    {
      assert rows[i] in rows;
      TsvRowReadsBack(rows[i]);
    }
    SplitLinesJoin(lines);
  }
}
