/** Text helpers shared by the modules: optional values, decimal numerals, splitting and joining. */
module Basics {

  datatype Option<+T> = None | Some(value: T)

  function Min(a: int, b: int): (m: int)
    ensures m <= a && m <= b && (m == a || m == b)
  {
    if a < b then a else b
  }

  function Max(a: int, b: int): (m: int)
    ensures a <= m && b <= m && (m == a || m == b)
  {
    if a < b then b else a
  }

  lemma CatAssociates<T>(a: seq<T>, b: seq<T>, c: seq<T>)
    ensures a + b + c == a + (b + c)
  {
  }

  lemma CatTake<T>(a: seq<T>, i: nat)
    requires i < |a|
    ensures a[..i + 1] == a[..i] + [a[i]]
  {
  }

  lemma CatSlices<T>(a: seq<T>, b: seq<T>)
    ensures (a + b)[..|a|] == a && (a + b)[|a|..] == b
  {
  }

  // --- Sequences without repetition ---------------------------------------------------------

  ghost predicate Distinct<T>(s: seq<T>) { forall i, j :: 0 <= i < j < |s| ==> s[i] != s[j] }

  lemma {:induction false} DistinctSize<T>(s: seq<T>, elements: set<T>)
    requires Distinct(s) && forall x :: x in s <==> x in elements
    ensures |s| == |elements|
  {
    if s == [] {
      assert elements == {};
    } else {
      var init, last := s[..|s| - 1], s[|s| - 1];
      assert s == init + [last];
      DistinctSize(init, elements - {last});
    }
  }

  // --- Trimming ----------------------------------------------------------------------------

  // strings.TrimLeft and strings.TrimRight.
  function TrimLeft(s: string, cut: set<char>): (r: string)
    ensures r != "" ==> r[0] !in cut
  {
    if s != "" && s[0] in cut then TrimLeft(s[1..], cut) else s
  }

  function TrimRight(s: string, cut: set<char>): (r: string)
    ensures r != "" ==> s != "" && r[0] == s[0] && r[|r| - 1] !in cut
  {
    if s != "" && s[|s| - 1] in cut then TrimRight(s[..|s| - 1], cut) else s
  }

  // What is cut off is in the cut set; that no more can be cut is in the contracts above.
  lemma {:induction false} TrimLeftCuts(s: string, cut: set<char>) returns (n: nat)
    ensures n <= |s| && TrimLeft(s, cut) == s[n..] && forall i :: 0 <= i < n ==> s[i] in cut
  {
    if s != "" && s[0] in cut {
      var m := TrimLeftCuts(s[1..], cut);
      assert s[1..][m..] == s[m + 1..];
      assert forall i :: 0 < i <= m ==> s[i] == s[1..][i - 1];
      n := m + 1;
    } else {
      n := 0;
    }
  }

  lemma {:induction false} TrimRightCuts(s: string, cut: set<char>) returns (n: nat)
    ensures n <= |s| && TrimRight(s, cut) == s[..n] && forall i :: n <= i < |s| ==> s[i] in cut
  {
    if s != "" && s[|s| - 1] in cut {
      n := TrimRightCuts(s[..|s| - 1], cut);
    } else {
      n := |s|;
    }
  }

  // unicode.IsSpace
  const SPACES := {'\t', '\n', '\U{B}', '\U{C}', '\r', ' ', '\U{85}', '\U{A0}', '\U{1680}',
                   '\U{2000}', '\U{2001}', '\U{2002}', '\U{2003}', '\U{2004}', '\U{2005}', '\U{2006}', '\U{2007}',
                   '\U{2008}', '\U{2009}', '\U{200A}', '\U{2028}', '\U{2029}', '\U{202F}', '\U{205F}', '\U{3000}'}

  function TrimSpace(s: string): string { TrimRight(TrimLeft(s, SPACES), SPACES) }

  /** Trimming cuts the spaces at both ends and nothing else. */
  lemma TrimSpaceCuts(s: string) returns (from: nat, to: nat)
    ensures from <= to <= |s| && TrimSpace(s) == s[from..to]
    ensures forall i :: 0 <= i < from || to <= i < |s| ==> s[i] in SPACES
    ensures from < to ==> s[from] !in SPACES && s[to - 1] !in SPACES
  {
    hide SPACES;
    from := TrimLeftCuts(s, SPACES);
    var n := TrimRightCuts(s[from..], SPACES);
    to := from + n;
    assert s[from..][..n] == s[from..to];
    forall i | to <= i < |s| ensures s[i] in SPACES {
      assert s[i] == s[from..][i - from];
    }
  }

  // --- Decimal numerals --------------------------------------------------------------------

  predicate IsDigitChar(c: char) { '0' <= c <= '9' }

  predicate AllDigits(s: string) { forall i :: 0 <= i < |s| ==> IsDigitChar(s[i]) }

  function DigitChar(d: nat): char
    requires d < 10
  {
    '0' + d as char
  }

  // strconv.Itoa on a non-negative number.
  function Decimal(n: nat): (s: string)
    ensures s != [] && AllDigits(s)
  {
    if n < 10 then [DigitChar(n)] else Decimal(n / 10) + [DigitChar(n % 10)]
  }

  // The text of an integer.
  function IntText(n: int): string { if n < 0 then "-" + Decimal(-n) else Decimal(n) }

  function DecimalValue(s: string): nat
    requires AllDigits(s)
  {
    if s == [] then 0 else DecimalValue(s[..|s| - 1]) * 10 + (s[|s| - 1] - '0') as nat
  }

  lemma {:induction false} DecimalRoundTrip(n: nat)
    ensures DecimalValue(Decimal(n)) == n
  {
    if n >= 10 {
      DecimalRoundTrip(n / 10);
      var s := Decimal(n);
      assert s[..|s| - 1] == Decimal(n / 10);
    }
  }

  const MAX_INT := 0x7FFF_FFFF_FFFF_FFFF

  // strconv.Atoi into a 64-bit integer.
  function Atoi(s: string): (r: Option<int>)
    ensures r.Some? ==> -MAX_INT - 1 <= r.value <= MAX_INT
    ensures r.Some? ==> s != "" && forall i :: 0 <= i < |s| ==> IsDigitChar(s[i]) || s[i] == '-' || s[i] == '+'
  {
    var signed := s != "" && (s[0] == '-' || s[0] == '+');
    var digits := if signed then s[1..] else s;
    if digits == "" || !AllDigits(digits) then None
    else
      var v: int := DecimalValue(digits);
      if signed && s[0] == '-' then (if v <= MAX_INT + 1 then Some(-v) else None)
      else if v <= MAX_INT then Some(v)
      else None
  }

  /** The text of a number is read back with its sign if it is a 64-bit integer, and refused otherwise. */
  lemma IntTextReadsBack(n: int)
    ensures Atoi(IntText(n)) == if -MAX_INT - 1 <= n <= MAX_INT then Some(n) else None
    ensures 0 <= n ==> Atoi("+" + Decimal(n)) == Atoi(Decimal(n))
  {
    var magnitude: nat := if n < 0 then -n else n;
    DecimalRoundTrip(magnitude);
    hide Decimal, DecimalValue, Atoi;
    DigitsRead(Decimal(magnitude));
  }

  lemma DigitsRead(d: string)
    requires d != "" && AllDigits(d)
    ensures Atoi(d) == Atoi("+" + d) == if DecimalValue(d) <= MAX_INT then Some(DecimalValue(d)) else None
    ensures var v: int := DecimalValue(d); Atoi("-" + d) == if v <= MAX_INT + 1 then Some(-v) else None
  {
    hide DecimalValue;
    assert IsDigitChar(d[0]);
    assert ("-" + d)[1..] == d && ("+" + d)[1..] == d;
  }

  lemma DecimalReadsBack(i: nat)
    requires i <= MAX_INT
    ensures Atoi(Decimal(i)) == Some(i)
  {
    IntTextReadsBack(i);
  }

  // --- Hexadecimal digits -------------------------------------------------------------------

  predicate IsHex(c: char) { '0' <= c <= '9' || 'a' <= c <= 'f' || 'A' <= c <= 'F' }

  predicate IsHex4(s: string) { forall i :: 0 <= i < |s| ==> IsHex(s[i]) }

  function HexValue(c: char): (d: nat)
    requires IsHex(c)
    ensures d < 16
  {
    if '0' <= c <= '9' then (c - '0') as nat
    else if 'a' <= c <= 'f' then (c - 'a') as nat + 10
    else (c - 'A') as nat + 10
  }

  function Hex4(s: string): (v: nat)
    requires |s| == 4 && IsHex4(s)
    ensures v < 0x1_0000
  {
    ((HexValue(s[0]) * 16 + HexValue(s[1])) * 16 + HexValue(s[2])) * 16 + HexValue(s[3])
  }

  // --- Splitting and joining ---------------------------------------------------------------

  // strings.Split on a one-character separator.
  function Split(t: string, c: char): (parts: seq<string>)
    ensures 0 < |parts|
  {
    if t == [] then [""]
    else if t[0] == c then [""] + Split(t[1..], c)
    else
      var rest := Split(t[1..], c);
      [[t[0]] + rest[0]] + rest[1..]
  }

  // strings.Join with a one-character separator.
  function Join(parts: seq<string>, c: char): string {
    if parts == [] then ""
    else if |parts| == 1 then parts[0]
    else parts[0] + [c] + Join(parts[1..], c)
  }

  ghost predicate Without(parts: seq<string>, c: char) { forall i :: 0 <= i < |parts| ==> c !in parts[i] }

  // No part holds the separator, or a character the text does not have.
  lemma {:induction false} SplitClean(t: string, c: char)
    ensures Without(Split(t, c), c)
    ensures forall d :: d !in t ==> Without(Split(t, c), d)
  {
    if t != [] {
      SplitClean(t[1..], c);
      assert forall d :: d !in t ==> d !in t[1..];
    }
  }

  lemma {:induction false} SplitOnce(head: string, tail: string, c: char)
    requires c !in head
    ensures Split(head + [c] + tail, c) == [head] + Split(tail, c)
    ensures Split(head, c) == [head]
  {
    if head == [] {
      assert head + [c] + tail == [c] + tail;
    } else {
      assert head == [head[0]] + head[1..];
      assert head[0] in head;
      assert (head + [c] + tail)[1..] == head[1..] + [c] + tail;
      SplitOnce(head[1..], tail, c);
    }
  }

  /** Splitting undoes joining when no part contains the separator. */
  lemma {:induction false} SplitJoin(parts: seq<string>, c: char)
    requires parts != [] && Without(parts, c)
    ensures Split(Join(parts, c), c) == parts
  {
    if |parts| == 1 {
      SplitOnce(parts[0], [], c);
    } else {
      SplitOnce(parts[0], Join(parts[1..], c), c);
      SplitJoin(parts[1..], c);
    }
  }
}
