/**
 The wire frame of schema-encoded values and its segment of message indexes
 (backend/internal/kafkaconn/schema.go).
 */
module WireFrame {
  import opened Basics

  type Byte = b: int | 0 <= b < 256

  const MAGIC_BYTE: Byte := 0
  const TWO_32: int := 0x1_0000_0000
  const TWO_64: int := 0x1_0000_0000_0000_0000

  // --- Frames ------------------------------------------------------------------------------------

  // A conversion to uint32, and the four bytes of one.
  function BigEndian(id: int): seq<Byte> {
    var v := id % TWO_32;
    [v / 0x100_0000, v / 0x1_0000 % 256, v / 256 % 256, v % 256]
  }

  function FromBigEndian(b: seq<Byte>): (v: int)
    requires |b| == 4
    ensures 0 <= v < TWO_32
  {
    ((b[0] as int * 256 + b[1]) * 256 + b[2]) * 256 + b[3]
  }

  datatype Unpacked = TooShort | WrongMagic(found: Byte) | Frame(schemaId: int, payload: seq<Byte>)

  method EncodeWireFrame(schemaId: int, payload: seq<Byte>) returns (wire: array<Byte>)
    ensures fresh(wire) && wire[..] == [0] + BigEndian(schemaId) + payload
  {
    wire := new Byte[5 + |payload|];
    wire[0] := MAGIC_BYTE;
    var id := BigEndian(schemaId);
    wire[1], wire[2], wire[3], wire[4] := id[0], id[1], id[2], id[3];
    for i := 0 to |payload|
      modifies wire
      invariant wire[..5 + i] == [MAGIC_BYTE] + id + payload[..i]
    {
      wire[5 + i] := payload[i];
      assert wire[..5 + i + 1] == wire[..5 + i] + [payload[i]];
      assert payload[..i + 1] == payload[..i] + [payload[i]];
    }
    assert payload[..|payload|] == payload && wire[..5 + |payload|] == wire[..];
  }

  function DecodeWireFrame(value: seq<Byte>): (r: Unpacked) {
    if |value| < 5 then TooShort
    else if value[0] != MAGIC_BYTE then WrongMagic(value[0])
    else Frame(FromBigEndian(value[1..5]), value[5..])
  }

  lemma BigEndianInverse(b: seq<Byte>)
    requires |b| == 4
    ensures BigEndian(FromBigEndian(b)) == b
  {
    var v := FromBigEndian(b);
    assert v / 256 == (b[0] as int * 256 + b[1]) * 256 + b[2];
    assert v / 0x1_0000 == b[0] as int * 256 + b[1];
    assert v / 0x100_0000 == b[0];
  }

  lemma BigEndianRoundTrip(id: int)
    ensures FromBigEndian(BigEndian(id)) == id % TWO_32
  {
    var v := id % TWO_32;
    assert v / 256 == v / 0x1_0000 * 256 + v / 256 % 256;
    assert v / 0x1_0000 == v / 0x100_0000 * 256 + v / 0x1_0000 % 256;
  }

  /** The most significant byte comes first. */
  lemma BigEndianPlaces(id: int)
    ensures var b := BigEndian(id);
            && |b| == 4
            && b[0] as int * 0x100_0000 + b[1] as int * 0x1_0000 + b[2] as int * 0x100 + b[3] as int
               == id % 0x1_0000_0000
  {
    BigEndianRoundTrip(id);
  }

  /** Unpacking undoes packing, up to the wrap of the id at 32 bits, and accepts packed frames only. */
  lemma UnpacksExactlyFrames(value: seq<Byte>, schemaId: int, payload: seq<Byte>)
    ensures DecodeWireFrame(value) == Frame(schemaId, payload) <==>
            0 <= schemaId < TWO_32 && value == [MAGIC_BYTE] + BigEndian(schemaId) + payload
  {
    if DecodeWireFrame(value) == Frame(schemaId, payload) {
      BigEndianInverse(value[1..5]);
      assert value == [value[0]] + value[1..5] + value[5..];
    }
    var packed := [MAGIC_BYTE] + BigEndian(schemaId) + payload;
    assert packed[1..5] == BigEndian(schemaId) && packed[5..] == payload;
    BigEndianRoundTrip(schemaId);
  }

  // --- Base-128 varints --------------------------------------------------------------------------

  // binary.AppendUvarint of an unsigned 64-bit value.
  function Uvarint(x: nat): (v: seq<Byte>)
    ensures v != []
  {
    if x < 128 then [x] else [128 + x % 128] + Uvarint(x / 128)
  }

  // Seven bits a byte, the least significant first.
  ghost function Septets(v: seq<Byte>): nat { if v == [] then 0 else v[0] % 128 + 128 * Septets(v[1..]) }

  /** The bytes hold the value, all but the last have the continuation bit, and none could be left out. */
  lemma {:induction false} UvarintIsShortest(x: nat)
    ensures var v := Uvarint(x);
            && Septets(v) == x && v[|v| - 1] < 128 && (forall i :: 0 <= i < |v| - 1 ==> v[i] >= 128)
            && (|v| > 1 ==> v[|v| - 1] > 0)
  {
    var v := Uvarint(x);
    if x < 128 {
      assert Septets(v[1..]) == 0;
    } else {
      UvarintIsShortest(x / 128);
      assert v[1..] == Uvarint(x / 128) && (128 + x % 128) % 128 == x % 128;
      forall i | 0 < i < |v| ensures v[i] == Uvarint(x / 128)[i - 1] {
        assert v[i] == v[1..][i - 1];
      }
    }
  }

  datatype Varint = Incomplete | Overflow | Value(value: nat, size: nat)

  // binary.Uvarint, at its byte number i.
  function ReadUvarint(buf: seq<Byte>, i: nat): (r: Varint)
    ensures r.Value? ==> 0 < r.size <= |buf|
  {
    if buf == [] then Incomplete
    else if i == 10 then Overflow
    else if buf[0] < 128 then (if i == 9 && buf[0] > 1 then Overflow else Value(buf[0], 1))
    else
      match ReadUvarint(buf[1..], i + 1)
      case Value(value, size) => Value(buf[0] as int - 128 + 128 * value, size + 1)
      case other => other
  }

  // Room for what is still to come at byte number i.
  function Room(i: nat): nat
    requires i < 10
    decreases 10 - i
  {
    if i == 9 then 2 else 128 * Room(i + 1)
  }

  lemma RoomForAll()
    ensures Room(0) == TWO_64
  {
    assert Room(9) == 2 && Room(8) == 256 && Room(7) == 128 * 256;
    assert Room(6) == 128 * 128 * 256 && Room(5) == 128 * 128 * 128 * 256;
    assert Room(4) == 128 * Room(5) && Room(3) == 128 * Room(4) && Room(2) == 128 * Room(3) && Room(1) == 128 * Room(2);
  }

  lemma {:induction false} UvarintReadsBack(x: nat, i: nat, rest: seq<Byte>)
    requires i <= 9 && x < Room(i)
    ensures ReadUvarint(Uvarint(x) + rest, i) == Value(x, |Uvarint(x)|)
  {
    if x >= 128 {
      var tail := Uvarint(x / 128) + rest;
      assert i < 9;
      UvarintReadsBack(x / 128, i + 1, rest);
      assert (Uvarint(x) + rest)[1..] == tail;
    }
  }

  // --- The index segment -------------------------------------------------------------------------

  // A conversion of a 64-bit index to uint64.
  function Unsigned(index: int): nat { index % TWO_64 }

  function Segment(indexes: seq<int>): seq<Byte> {
    if indexes == [] then [] else Segment(indexes[..|indexes| - 1]) + Uvarint(Unsigned(indexes[|indexes| - 1]))
  }

  method EncodeMessageIndexes(indexes: seq<int>) returns (out: seq<Byte>)
    ensures out == Segment(indexes)
  {
    out := [];
    for i := 0 to |indexes|
      invariant out == Segment(indexes[..i])
    {
      assert indexes[..i + 1][..i] == indexes[..i];
      out := out + Uvarint(Unsigned(indexes[i]));
    }
    assert indexes[..|indexes|] == indexes;
  }

  // The values read and what follows them.
  function Strip(payload: seq<Byte>, depth: nat): (r: Option<(seq<nat>, seq<Byte>)>)
    ensures r.Some? ==> |r.value.0| == depth
  {
    if depth == 0 then Some(([], payload))
    else
      match Strip(payload, depth - 1)
      case None => None
      case Some(before) =>
        match ReadUvarint(before.1, 0)
        case Value(value, size) => Some((before.0 + [value], before.1[size..]))
        case _ => None
  }

  lemma {:induction false} StripNeedsShorter(payload: seq<Byte>, fewer: nat, depth: nat)
    requires fewer <= depth && Strip(payload, fewer).None?
    ensures Strip(payload, depth).None?
  {
    if fewer < depth {
      StripNeedsShorter(payload, fewer, depth - 1);
    }
  }

  method StripMessageIndexes(payload: seq<Byte>, depth: int) returns (rest: seq<Byte>, ok: bool)
    ensures depth <= 0 ==> ok && rest == payload
    ensures depth > 0 ==> ok == Strip(payload, depth).Some? && (ok ==> rest == Strip(payload, depth).value.1)
  {
    if depth <= 0 { return payload, true; }
    rest := payload;
    for i := 0 to depth
      invariant Strip(payload, i).Some? && rest == Strip(payload, i).value.1
    {
      var v := ReadUvarint(rest, 0);
      if !v.Value? {
        assert Strip(payload, i + 1).None?;
        StripNeedsShorter(payload, i + 1, depth);
        return [], false;
      }
      rest := rest[v.size..];
    }
    ok := true;
  }

  function AllUnsigned(indexes: seq<int>): seq<nat> {
    seq(|indexes|, i requires 0 <= i < |indexes| => Unsigned(indexes[i]))
  }

  /** Stripping as many varints as were packed gives their values and leaves the exact payload. */
  lemma {:induction false} SegmentStrips(indexes: seq<int>, payload: seq<Byte>)
    ensures Strip(Segment(indexes) + payload, |indexes|) == Some((AllUnsigned(indexes), payload))
  {
    if indexes == [] {
      assert Segment(indexes) + payload == payload;
    } else {
      var init, last := indexes[..|indexes| - 1], Unsigned(indexes[|indexes| - 1]);
      var rest := Uvarint(last) + payload;
      SegmentStrips(init, rest);
      CatAssociates(Segment(init), Uvarint(last), payload);
      RoomForAll();
      UvarintReadsBack(last, 0, payload);
      assert rest[|Uvarint(last)|..] == payload;
      assert AllUnsigned(indexes) == AllUnsigned(init) + [last];
    }
  }

  /** A framed payload comes back exactly, for every 32-bit id and every list of 64-bit indexes. */
  lemma FramedPayloadComesBack(schemaId: int, indexes: seq<int>, payload: seq<Byte>)
    requires 0 <= schemaId < TWO_32
    ensures var frame := DecodeWireFrame([MAGIC_BYTE] + BigEndian(schemaId) + (Segment(indexes) + payload));
            && frame.Frame? && frame.schemaId == schemaId
            && Strip(frame.payload, |indexes|) == Some((AllUnsigned(indexes), payload))
  {
    UnpacksExactlyFrames([MAGIC_BYTE] + BigEndian(schemaId) + (Segment(indexes) + payload), schemaId,
                         Segment(indexes) + payload);
    SegmentStrips(indexes, payload);
  }

  // --- What can be stripped ----------------------------------------------------------------------

  // At most ten bytes, all but the last with the continuation bit, within 64 bits.
  ghost predicate IsVarint(v: seq<Byte>) {
    && 1 <= |v| <= 10
    && (forall i :: 0 <= i < |v| - 1 ==> v[i] >= 128)
    && v[|v| - 1] < 128
    && (|v| == 10 ==> v[9] <= 1)
  }

  ghost function Concat(vs: seq<seq<Byte>>): seq<Byte> {
    if vs == [] then [] else Concat(vs[..|vs| - 1]) + vs[|vs| - 1]
  }

  // The first n bytes of buf end a varint of which i bytes came before.
  ghost predicate EndsVarint(buf: seq<Byte>, i: nat, n: nat) {
    && 1 <= n <= |buf| && n + i <= 10 && (forall k :: 0 <= k < n - 1 ==> buf[k] >= 128)
    && buf[n - 1] < 128 && (n + i == 10 ==> buf[n - 1] <= 1)
  }

  lemma EndsVarintStep(buf: seq<Byte>, i: nat, n: nat)
    requires buf != [] && buf[0] >= 128 && n > 0
    ensures EndsVarint(buf, i, n) <==> EndsVarint(buf[1..], i + 1, n - 1)
  {
    var tail := buf[1..];
    assert forall k :: 0 < k < |buf| ==> buf[k] == tail[k - 1];
    if EndsVarint(tail, i + 1, n - 1) {
      assert buf[n - 1] == tail[n - 2];
    }
  }

  lemma {:induction false} ReadsVarints(buf: seq<Byte>, i: nat, n: nat)
    requires i <= 10
    ensures ReadUvarint(buf, i).Value? && ReadUvarint(buf, i).size == n <==> EndsVarint(buf, i, n)
    decreases |buf|
  {
    if buf != [] && i < 10 && buf[0] >= 128 && n > 0 {
      ReadsVarints(buf[1..], i + 1, n - 1);
      EndsVarintStep(buf, i, n);
    }
  }

  ghost predicate AllVarints(vs: seq<seq<Byte>>) { forall v :: v in vs ==> IsVarint(v) }

  /**
   Stripping succeeds exactly on payloads that start with that many complete varints, and
   leaves exactly what follows them.
   */
  lemma {:induction false} StripsExactly(payload: seq<Byte>, depth: nat, rest: seq<Byte>)
    ensures Strip(payload, depth).Some? && Strip(payload, depth).value.1 == rest <==>
            exists vs :: |vs| == depth && AllVarints(vs) && payload == Concat(vs) + rest
  {
    if depth == 0 {
      assert Concat([]) + rest == rest && AllVarints([]);
    } else {
      if Strip(payload, depth).Some? && Strip(payload, depth).value.1 == rest {
        StripSplits(payload, depth, rest);
      }
      if vs :| |vs| == depth && AllVarints(vs) && payload == Concat(vs) + rest {
        StripTakes(payload, vs, rest);
      }
    }
  }

  lemma ConcatLast(init: seq<seq<Byte>>, last: seq<Byte>, rest: seq<Byte>)
    ensures Concat(init + [last]) + rest == Concat(init) + (last + rest)
  {
    assert (init + [last])[..|init|] == init;
  }

  lemma LastVarint(payload: seq<Byte>, depth: nat) returns (before: seq<Byte>, last: seq<Byte>, rest: seq<Byte>)
    requires depth > 0 && Strip(payload, depth).Some?
    ensures Strip(payload, depth - 1).Some? && before == Strip(payload, depth - 1).value.1
    ensures before == last + rest && IsVarint(last) && rest == Strip(payload, depth).value.1
  {
    before := Strip(payload, depth - 1).value.1;
    var n := ReadUvarint(before, 0).size;
    ReadsVarints(before, 0, n);
    last, rest := before[..n], before[n..];
  }

  lemma {:induction false} StripSplits(payload: seq<Byte>, depth: nat, rest: seq<Byte>)
    requires Strip(payload, depth).Some? && Strip(payload, depth).value.1 == rest
    ensures exists vs :: |vs| == depth && AllVarints(vs) && payload == Concat(vs) + rest
  {
    if depth == 0 {
      assert Concat([]) + rest == rest && AllVarints([]);
    } else {
      var before, last, _ := LastVarint(payload, depth);
      hide IsVarint, Strip, ReadUvarint;
      StripSplits(payload, depth - 1, before);
      var init :| |init| == depth - 1 && AllVarints(init) && payload == Concat(init) + before;
      ConcatLast(init, last, rest);
      assert |init + [last]| == depth && AllVarints(init + [last]) && payload == Concat(init + [last]) + rest;
    }
  }

  lemma {:induction false} StripTakes(payload: seq<Byte>, vs: seq<seq<Byte>>, rest: seq<Byte>)
    requires AllVarints(vs) && payload == Concat(vs) + rest
    ensures Strip(payload, |vs|).Some? && Strip(payload, |vs|).value.1 == rest
  {
    if vs == [] {
      assert Concat(vs) + rest == rest;
    } else {
      var init, last := vs[..|vs| - 1], vs[|vs| - 1];
      assert last in vs;
      CatAssociates(Concat(init), last, rest);
      StripTakes(payload, init, last + rest);
      ReadsVarints(last + rest, 0, |last|);
      assert (last + rest)[|last|..] == rest;
    }
  }

  // --- The path to a message ---------------------------------------------------------------------

  datatype Message = Message(name: string, nested: seq<Message>)

  // A descriptor knows its parent: the file, or the message it is declared in.
  datatype Descriptor = InFile(siblings: seq<Message>, own: Message) | Nested(parent: Descriptor, own: Message)

  // The messages declared beside this one.
  function Siblings(d: Descriptor): seq<Message> { if d.InFile? then d.siblings else d.parent.own.nested }

  // In a file of that package.
  function FullName(d: Descriptor, package: string): string {
    if d.InFile? then package + d.own.name else FullName(d.parent, package) + "." + d.own.name
  }

  function SiblingName(d: Descriptor, package: string, i: nat): string
    requires i < |Siblings(d)|
  {
    if d.InFile? then package + Siblings(d)[i].name else FullName(d.parent, package) + "." + Siblings(d)[i].name
  }

  // Declared where it says it is, with names distinct in every scope on the way.
  ghost predicate WellFormed(d: Descriptor) {
    && d.own in Siblings(d)
    && (forall i, j :: 0 <= i < j < |Siblings(d)| ==> Siblings(d)[i].name != Siblings(d)[j].name)
    && (d.Nested? ==> WellFormed(d.parent))
  }

  // Where a descriptor stands: the specification of the search by full name.
  ghost predicate StandsAt(d: Descriptor, i: nat) { i < |Siblings(d)| && Siblings(d)[i] == d.own }

  method SiblingIndex(d: Descriptor, package: string) returns (i: nat)
    ensures WellFormed(d) ==> StandsAt(d, i)
  {
    for k := 0 to |Siblings(d)|
      invariant forall j :: 0 <= j < k ==> Siblings(d)[j].name != d.own.name
    {
      if SiblingName(d, package, k) == FullName(d, package) {
        SameNameSamePlace(d, package, k);
        return k;
      }
    }
    return 0;
  }

  lemma SameNameSamePlace(d: Descriptor, package: string, k: nat)
    requires k < |Siblings(d)|
    ensures SiblingName(d, package, k) == FullName(d, package) <==> Siblings(d)[k].name == d.own.name
    ensures WellFormed(d) && Siblings(d)[k].name == d.own.name ==> StandsAt(d, k)
  {
    var prefix := if d.InFile? then package else FullName(d.parent, package) + ".";
    assert SiblingName(d, package, k)[|prefix|..] == Siblings(d)[k].name;
    assert FullName(d, package)[|prefix|..] == d.own.name;
  }

  // The declaration indexes from the file down to the message.
  ghost predicate IsPath(d: Descriptor, path: seq<int>) {
    && path != [] && 0 <= path[|path| - 1] && StandsAt(d, path[|path| - 1])
    && if d.InFile? then |path| == 1 else IsPath(d.parent, path[..|path| - 1])
  }

  function Reversed(s: seq<int>): seq<int> { if s == [] then [] else Reversed(s[1..]) + [s[0]] }

  lemma {:induction false} ReversedAt(s: seq<int>)
    ensures |Reversed(s)| == |s| && forall i :: 0 <= i < |s| ==> Reversed(s)[|s| - 1 - i] == s[i]
  {
    if s != [] {
      ReversedAt(s[1..]);
      assert forall i :: 0 < i < |s| ==> s[i] == s[1..][i - 1];
    }
  }

  lemma {:induction false} ReversedCat(s: seq<int>, last: int)
    ensures Reversed(s + [last]) == [last] + Reversed(s)
  {
    if s == [] {
      assert Reversed([last]) == Reversed([]) + [last];
    } else {
      assert (s + [last])[1..] == s[1..] + [last];
      ReversedCat(s[1..], last);
    }
  }

  // Whatever completes the climb at current completes the path of d.
  ghost predicate Climbed(d: Descriptor, current: Descriptor, reversed: seq<int>) {
    forall upper :: IsPath(current, upper) ==> IsPath(d, upper + Reversed(reversed))
  }

  lemma ClimbStep(d: Descriptor, current: Descriptor, reversed: seq<int>, i: nat)
    requires Climbed(d, current, reversed) && StandsAt(current, i)
    ensures current.Nested? ==> Climbed(d, current.parent, reversed + [i])
    ensures current.InFile? ==> IsPath(d, Reversed(reversed + [i]))
  {
    ReversedCat(reversed, i);
    if current.Nested? {
      forall upper | IsPath(current.parent, upper) ensures IsPath(d, upper + Reversed(reversed + [i])) {
        assert (upper + [i])[..|upper|] == upper;
        assert IsPath(current, upper + [i]);
        CatAssociates(upper, [i], Reversed(reversed));
      }
    } else {
      assert IsPath(current, [i]);
    }
  }

  method ReverseInto(reversed: seq<int>) returns (path: array<int>)
    ensures fresh(path) && path[..] == Reversed(reversed)
  {
    path := new int[|reversed|];
    for i := 0 to |reversed|
      modifies path
      invariant forall k :: 0 <= k < i ==> path[|reversed| - 1 - k] == reversed[k]
    {
      path[|reversed| - 1 - i] := reversed[i];
    }
    ReversedAt(reversed);
    forall j | 0 <= j < |reversed| ensures path[j] == Reversed(reversed)[j] {
      var i := |reversed| - 1 - j;
      assert path[|reversed| - 1 - i] == reversed[i];
      assert Reversed(reversed)[|reversed| - 1 - i] == reversed[i];
    }
  }

  method MessageIndexPath(d: Descriptor, package: string) returns (path: array<int>)
    ensures WellFormed(d) ==> IsPath(d, path[..])
  {
    var reversed := [];
    var current := d;
    assert forall upper: seq<int> :: upper + Reversed([]) == upper;
    while true
      invariant WellFormed(d) ==> WellFormed(current) && Climbed(d, current, reversed)
      decreases current
    {
      var i := SiblingIndex(current, package);
      if WellFormed(d) {
        ClimbStep(d, current, reversed, i);
      }
      reversed := reversed + [i];
      if current.InFile? {
        path := ReverseInto(reversed);
        return;
      }
      current := current.parent;
    }
  }

  // Going down the descriptor tree.
  function Follow(file: seq<Message>, path: seq<int>): Option<Descriptor> {
    if path == [] then None
    else
      var i := path[|path| - 1];
      if |path| == 1 then (if 0 <= i < |file| then Some(InFile(file, file[i])) else None)
      else
        match Follow(file, path[..|path| - 1])
        case None => None
        case Some(d) => if 0 <= i < |d.own.nested| then Some(Nested(d, d.own.nested[i])) else None
  }

  function File(d: Descriptor): seq<Message> { if d.InFile? then d.siblings else File(d.parent) }

  /** A path is one of a descriptor exactly when following it down the file reaches the descriptor. */
  lemma {:induction false} PathIsFollowedIff(d: Descriptor, path: seq<int>)
    ensures IsPath(d, path) <==> Follow(File(d), path) == Some(d)
  {
    if d.Nested? && path != [] {
      PathIsFollowedIff(d.parent, path[..|path| - 1]);
      if IsPath(d, path) {
        assert path[..|path| - 1] != [];
      }
    }
  }

  // What following an index path needs of its indexes.
  lemma {:induction false} PathFitsFile(d: Descriptor, path: seq<int>)
    requires IsPath(d, path)
    ensures forall i :: 0 <= i < |path| ==> 0 <= path[i]
  {
    if d.Nested? {
      PathFitsFile(d.parent, path[..|path| - 1]);
    }
  }

  /**
   The indexes written in front of a payload, read back and followed down the file, lead to
   the message the payload was written for; no other descriptor of the file has them.
   */
  lemma IndexesLeadToTheMessage(d: Descriptor, path: seq<int>, payload: seq<Byte>)
    requires IsPath(d, path) && forall i :: 0 <= i < |path| ==> path[i] < TWO_64
    ensures Strip(Segment(path) + payload, |path|) == Some((path, payload)) && Follow(File(d), path) == Some(d)
    ensures forall other :: File(other) == File(d) && IsPath(other, path) ==> other == d
  {
    hide Strip, Segment, Follow, IsPath, File, Unsigned, AllUnsigned;
    PathFitsFile(d, path);
    NothingWraps(path);
    SegmentStrips(path, payload);
    PathIsFollowedIff(d, path);
    forall other | File(other) == File(d) && IsPath(other, path) ensures other == d {
      PathIsFollowedIff(other, path);
    }
  }

  lemma NothingWraps(path: seq<int>)
    requires forall i :: 0 <= i < |path| ==> 0 <= path[i] < TWO_64
    ensures AllUnsigned(path) == path
  {
  }
}
