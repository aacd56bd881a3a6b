/** The time histogram and the counts of a digest (backend/internal/mcp/digest.go). */
module Histogram {
  import opened Basics
  import opened Groups
  import opened JsonPath

  const MAX_BUCKETS := 12

  datatype Bucket = Bucket(from: int, to: int, count: nat)

  datatype TimeHistogram = TimeHistogram(buckets: seq<Bucket>, noTimestamp: nat)

  // --- Shape -------------------------------------------------------------------------------------

  function BucketCount(span: int): (n: nat)
    requires 0 < span
    ensures 1 <= n <= MAX_BUCKETS && n <= span
  {
    if span > MAX_BUCKETS then MAX_BUCKETS else span
  }

  // Ceiling division.
  function Width(span: int): (w: nat)
    requires 0 < span
    ensures 0 < w
  {
    (span + BucketCount(span) - 1) / BucketCount(span)
  }

  // The empty bucket number i of timestamps between lo and hi; the last one ends behind hi.
  function EmptyBucket(lo: int, hi: int, i: nat): Bucket
    requires lo <= hi
  {
    var span := hi - lo + 1;
    var from := lo + i * Width(span);
    Bucket(from, if i == BucketCount(span) - 1 then hi + 1 else from + Width(span), 0)
  }

  predicate In(t: int, b: Bucket) { b.from <= t < b.to }

  lemma WidthCovers(span: int)
    requires 0 < span
    ensures span <= BucketCount(span) * Width(span)
    ensures Width(span) > 1 ==> span > (Width(span) - 1) * BucketCount(span)
  {
    var n := BucketCount(span);
    assert (span + n - 1) / n * n > span - 1;
  }

  lemma QuotientIff(x: int, w: int, j: int)
    requires 0 < w
    ensures x / w == j <==> j * w <= x < (j + 1) * w
  {
    var q := x / w;
    assert x == q * w + x % w;
    if j < q {
      assert (j + 1) * w <= q * w;
    } else if j > q {
      assert (q + 1) * w <= j * w;
    }
  }

  lemma MulMonotone(n: int, q: int, w: int)
    requires 0 < w
    ensures n <= q ==> n * w <= q * w
  {
  }

  lemma IndexFits(x: int, w: int, n: int)
    requires 0 <= x < n * w && 0 < w
    ensures 0 <= x / w < n
  {
    var q := x / w;
    QuotientIff(x, w, q);
    MulMonotone(n, q, w);
  }

  /** The clamp never fires, and a timestamp lies in the bucket it is counted in and in no other. */
  lemma InExactlyOneBucket(lo: int, hi: int, t: int, j: nat)
    requires lo <= t <= hi && j < BucketCount(hi - lo + 1)
    ensures 0 <= (t - lo) / Width(hi - lo + 1) < BucketCount(hi - lo + 1)
    ensures In(t, EmptyBucket(lo, hi, j)) <==> j == (t - lo) / Width(hi - lo + 1)
  {
    hide Width, BucketCount;
    var n, w := BucketCount(hi - lo + 1), Width(hi - lo + 1);
    WidthCovers(hi - lo + 1);
    IndexFits(t - lo, w, n);
    QuotientIff(t - lo, w, j);
    assert (j + 1) * w == j * w + w;
  }

  // --- Building it -------------------------------------------------------------------------------

  function CountIn(timestamps: seq<int>, b: Bucket): nat {
    if timestamps == [] then 0
    else CountIn(timestamps[..|timestamps| - 1], b) + (if In(timestamps[|timestamps| - 1], b) then 1 else 0)
  }

  function Total(buckets: seq<Bucket>): nat {
    if buckets == [] then 0 else Total(buckets[..|buckets| - 1]) + buckets[|buckets| - 1].count
  }

  ghost predicate Bounds(timestamps: seq<int>, lo: int, hi: int) {
    lo in timestamps && hi in timestamps && forall i :: 0 <= i < |timestamps| ==> lo <= timestamps[i] <= hi
  }

  // The buckets after counting the given timestamps.
  ghost predicate Counted(buckets: seq<Bucket>, lo: int, hi: int, timestamps: seq<int>) {
    && lo <= hi && |buckets| == BucketCount(hi - lo + 1)
    && (forall j :: 0 <= j < |buckets| ==>
          buckets[j].from == EmptyBucket(lo, hi, j).from && buckets[j].to == EmptyBucket(lo, hi, j).to)
    && (forall j :: 0 <= j < |buckets| ==> buckets[j].count == CountIn(timestamps, buckets[j]))
    && Total(buckets) == |timestamps|
  }

  lemma {:induction false} TotalOfUpdate(buckets: seq<Bucket>, j: nat)
    requires j < |buckets|
    ensures Total(buckets[j := buckets[j].(count := buckets[j].count + 1)]) == Total(buckets) + 1
  {
    var updated := buckets[j := buckets[j].(count := buckets[j].count + 1)];
    if j == |buckets| - 1 {
      assert updated[..|buckets| - 1] == buckets[..|buckets| - 1];
    } else {
      assert updated[..|buckets| - 1] == buckets[..|buckets| - 1][j := updated[j]];
      TotalOfUpdate(buckets[..|buckets| - 1], j);
    }
  }

  lemma {:induction false} CountInSameInterval(timestamps: seq<int>, b: Bucket, c: Bucket)
    requires b.from == c.from && b.to == c.to
    ensures CountIn(timestamps, b) == CountIn(timestamps, c)
  {
    if timestamps != [] {
      CountInSameInterval(timestamps[..|timestamps| - 1], b, c);
    }
  }

  lemma CountedStep(buckets: seq<Bucket>, lo: int, hi: int, timestamps: seq<int>, t: int, index: int)
    requires Counted(buckets, lo, hi, timestamps) && lo <= t <= hi && index == (t - lo) / Width(hi - lo + 1)
    ensures 0 <= index < |buckets|
    ensures Counted(buckets[index := buckets[index].(count := buckets[index].count + 1)], lo, hi, timestamps + [t])
  {
    InExactlyOneBucket(lo, hi, t, 0);
    var updated := buckets[index := buckets[index].(count := buckets[index].count + 1)];
    TotalOfUpdate(buckets, index);
    assert (timestamps + [t])[..|timestamps|] == timestamps;
    forall j | 0 <= j < |updated| ensures updated[j].count == CountIn(timestamps + [t], updated[j]) {
      InExactlyOneBucket(lo, hi, t, j);
      CountInSameInterval(timestamps, buckets[j], updated[j]);
    }
  }

  method MinMax(timestamps: seq<int>) returns (lo: int, hi: int)
    requires timestamps != []
    ensures Bounds(timestamps, lo, hi)
  {
    lo, hi := timestamps[0], timestamps[0];
    for i := 0 to |timestamps|
      invariant lo in timestamps && hi in timestamps && lo <= hi
      invariant forall k :: 0 <= k < i ==> lo <= timestamps[k] <= hi
    {
      if timestamps[i] < lo { lo := timestamps[i]; }
      if timestamps[i] > hi { hi := timestamps[i]; }
    }
  }

  // The slice of buckets, its counters raised in place.
  method FillBuckets(timestamps: seq<int>, lo: int, hi: int) returns (buckets: array<Bucket>)
    requires Bounds(timestamps, lo, hi)
    ensures fresh(buckets) && Counted(buckets[..], lo, hi, timestamps)
  {
    var span := hi - lo + 1;
    var n: int, width := BucketCount(span), Width(span);
    buckets := EmptyBuckets(lo, hi);
    assert timestamps[..|timestamps|] == timestamps;
    for i := 0 to |timestamps|
      modifies buckets
      invariant Counted(buckets[..], lo, hi, timestamps[..i])
    {
      hide Counted, Width, BucketCount;
      var index: int := (timestamps[i] - lo) / width;
      CountedStep(buckets[..], lo, hi, timestamps[..i], timestamps[i], index);
      assert timestamps[..i + 1] == timestamps[..i] + [timestamps[i]];
      CountedLength(buckets[..], lo, hi, timestamps[..i]);
      if index >= n {
        index := n - 1;
      }
      RaiseCount(buckets, index);
    }
  }

  lemma CountedLength(buckets: seq<Bucket>, lo: int, hi: int, timestamps: seq<int>)
    requires Counted(buckets, lo, hi, timestamps)
    ensures |buckets| == BucketCount(hi - lo + 1)
  {
  }

  method RaiseCount(buckets: array<Bucket>, index: int)
    requires 0 <= index < buckets.Length
    modifies buckets
    ensures buckets[..] == old(buckets[..])[index := old(buckets[index]).(count := old(buckets[index]).count + 1)]
  {
    buckets[index] := buckets[index].(count := buckets[index].count + 1);
  }

  method EmptyBuckets(lo: int, hi: int) returns (buckets: array<Bucket>)
    requires lo <= hi
    ensures fresh(buckets) && Counted(buckets[..], lo, hi, [])
  {
    var span := hi - lo + 1;
    var n, width := BucketCount(span), Width(span);
    buckets := new Bucket[n];
    for i := 0 to n
      modifies buckets
      invariant forall j :: 0 <= j < i ==> buckets[j] == EmptyBucket(lo, hi, j)
    {
      hide Width, BucketCount;
      var from := lo + i * width;
      var to := from + width;
      if i == n - 1 {
        to := hi + 1;
      }
      buckets[i] := Bucket(from, to, 0);
    }
    NothingCounted(buckets[..]);
  }

  lemma {:induction false} NothingCounted(buckets: seq<Bucket>)
    requires forall j :: 0 <= j < |buckets| ==> buckets[j].count == 0
    ensures Total(buckets) == 0
  {
    if buckets != [] {
      NothingCounted(buckets[..|buckets| - 1]);
    }
  }

  // What a histogram promises of the timestamps it was built from.
  ghost predicate Exact(buckets: seq<Bucket>, timestamps: seq<int>) {
    && 1 <= |buckets| <= MAX_BUCKETS
    && (forall j :: 0 <= j < |buckets| ==> buckets[j].count == CountIn(timestamps, buckets[j]))
    && (forall t :: t in timestamps ==> exists j :: 0 <= j < |buckets| && In(t, buckets[j]))
    && (forall t, i, j :: t in timestamps && 0 <= i < j < |buckets| && In(t, buckets[i]) ==> !In(t, buckets[j]))
    && Total(buckets) == |timestamps|
  }

  lemma CountedIsExact(buckets: seq<Bucket>, lo: int, hi: int, timestamps: seq<int>)
    requires Counted(buckets, lo, hi, timestamps) && Bounds(timestamps, lo, hi)
    ensures Exact(buckets, timestamps)
  {
    forall t | t in timestamps
      ensures exists j :: 0 <= j < |buckets| && In(t, buckets[j])
      ensures forall i, j :: 0 <= i < j < |buckets| && In(t, buckets[i]) ==> !In(t, buckets[j])
    {
      forall j | 0 <= j < |buckets|
        ensures 0 <= (t - lo) / Width(hi - lo + 1) < |buckets|
        ensures In(t, buckets[j]) <==> j == (t - lo) / Width(hi - lo + 1)
      {
        InExactlyOneBucket(lo, hi, t, j);
      }
      assert 0 < |buckets|;
      assert In(t, buckets[0]) <==> 0 == (t - lo) / Width(hi - lo + 1);
      assert In(t, buckets[(t - lo) / Width(hi - lo + 1)]);
    }
  }

  method BuildTimeHistogram(timestamps: seq<int>) returns (r: Option<TimeHistogram>)
    ensures r.None? <==> timestamps == []
    ensures r.Some? ==> Exact(r.value.buckets, timestamps) && r.value.noTimestamp == 0
    ensures r.Some? ==> exists lo, hi :: Bounds(timestamps, lo, hi) && Counted(r.value.buckets, lo, hi, timestamps)
  {
    if timestamps == [] { return None; }
    var lo, hi := MinMax(timestamps);
    var buckets := FillBuckets(timestamps, lo, hi);
    CountedIsExact(buckets[..], lo, hi, timestamps);
    return Some(TimeHistogram(buckets[..], 0));
  }

  /**
   There are twelve buckets, or one for each millisecond of a shorter span. They follow each
   other from the first timestamp on, each as wide as the least width with which they reach
   the last one; the last bucket ends right behind it.
   */
  lemma BucketShape(buckets: seq<Bucket>, lo: int, hi: int, timestamps: seq<int>) returns (w: nat)
    requires Counted(buckets, lo, hi, timestamps)
    ensures |buckets| == Min(12, hi - lo + 1) && (w - 1) * |buckets| < hi - lo + 1 <= w * |buckets|
    ensures forall j :: 0 <= j < |buckets| ==> buckets[j].from == lo + j * w
    ensures forall j :: 0 <= j < |buckets| - 1 ==> buckets[j].to == buckets[j + 1].from
    ensures buckets[|buckets| - 1].to == hi + 1
  {
    var span := hi - lo + 1;
    w := Width(span);
    WidthCovers(span);
    assert |buckets| == Min(12, span);
    hide Width, BucketCount, CountIn, Total;
    assert w == 1 ==> (w - 1) * |buckets| == 0;
    forall j | 0 <= j < |buckets| - 1 ensures buckets[j].to == buckets[j + 1].from {
      assert (j + 1) * w == j * w + w;
    }
  }

  // --- Inverted buckets --------------------------------------------------------------------------

  // Twelve buckets of which the others leave no room for the last.
  predicate Inverts(span: int) { span > 12 && (span - 1) / 12 + (span - 1) % 12 < 10 }

  lemma InvertedSpans(span: int)
    requires 0 < span
    ensures (BucketCount(span) - 1) * Width(span) > span <==> Inverts(span)
    ensures Inverts(span) ==> 13 <= span <= 109
  {
    if span <= 12 {
      assert Width(span) == 1;
    } else {
      assert Width(span) == (span - 1) / 12 + 1;
    }
  }

  /**
   Every bucket ends at or behind its start, except that the last one is inverted when the
   span exceeds 12 and one less than it has quotient and remainder by 12 with a sum below
   10; the greatest such span is 109.
   */
  lemma InvertedIff(buckets: seq<Bucket>, lo: int, hi: int, timestamps: seq<int>)
    requires Counted(buckets, lo, hi, timestamps)
    ensures (forall j :: 0 <= j < |buckets| ==> buckets[j].from <= buckets[j].to) <==>
            !Inverts(hi - lo + 1)
    ensures hi - lo + 1 >= 110 ==> forall j :: 0 <= j < |buckets| ==> buckets[j].from <= buckets[j].to
  {
    InvertedSpans(hi - lo + 1);
    hide Width, BucketCount, Inverts;
    var last := |buckets| - 1;
    assert buckets[last].from <= buckets[last].to <==> last * Width(hi - lo + 1) <= hi - lo + 1;
  }

  // A span of 13 inverts the last bucket.
  lemma SpanOf13(buckets: seq<Bucket>, lo: int, timestamps: seq<int>)
    requires Counted(buckets, lo, lo + 12, timestamps)
    ensures |buckets| == 12 && buckets[11].from == lo + 22 && buckets[11].to == lo + 13 && buckets[11].count == 0
  {
    assert Width(13) == 2;
    NothingInverted(timestamps, buckets[11]);
  }

  lemma {:induction false} NothingInverted(timestamps: seq<int>, b: Bucket)
    requires b.to <= b.from
    ensures CountIn(timestamps, b) == 0
  {
    if timestamps != [] {
      NothingInverted(timestamps[..|timestamps| - 1], b);
    }
  }

  // --- The counts of a digest --------------------------------------------------------------------

  // decoded is what the value's text decodes to, if it is JSON.
  datatype Message = Message(partition: int, key: string, keyBase64: string, timestamp: int, decoded: Option<Json>)

  // The group a message's key is counted under, if it has one.
  function KeyGroup(m: Message): Option<string> {
    var key := if m.key == "" && m.keyBase64 != "" then "(binary key)" else m.key;
    if TrimSpace(key) == "" then None else Some(key)
  }

  function Partitions(messages: seq<Message>): seq<string> {
    seq(|messages|, i requires 0 <= i < |messages| => IntText(messages[i].partition))
  }

  function Keys(messages: seq<Message>): seq<string> {
    if messages == [] then []
    else
      var before, m := Keys(messages[..|messages| - 1]), messages[|messages| - 1];
      match KeyGroup(m) case None => before case Some(key) => before + [key]
  }

  function Timestamps(messages: seq<Message>): seq<int> {
    if messages == [] then []
    else
      var before, m := Timestamps(messages[..|messages| - 1]), messages[|messages| - 1];
      if m.timestamp > 0 then before + [m.timestamp] else before
  }

  /** A key is its own group unless it is blank; a key of bytes that are no text has a group of its own. */
  lemma KeyGroupIs(m: Message)
    ensures KeyGroup(m) ==
            if exists i :: 0 <= i < |m.key| && m.key[i] !in SPACES then Some(m.key)
            else if m.key == "" && m.keyBase64 != "" then Some("(binary key)")
            else None
  {
    var from, to := TrimSpaceCuts(m.key);
    BinaryIsNotBlank();
    hide TrimSpace, SPACES;
  }

  lemma BinaryIsNotBlank()
    ensures TrimSpace("(binary key)") != ""
  {
    assert '(' !in SPACES;
    hide SPACES, TrimSpace;
    var key := "(binary key)";
    var from, to := TrimSpaceCuts(key);
    assert key[0] == '(';
  }

  // The places of the messages that satisfy p.
  ghost function Where(messages: seq<Message>, p: Message -> bool): set<nat> {
    set i: nat | i < |messages| && p(messages[i])
  }

  ghost function KeyedBy(g: string): Message -> bool { (m: Message) => KeyGroup(m) == Some(g) }

  ghost function InPartition(g: string): Message -> bool { (m: Message) => IntText(m.partition) == g }

  ghost function StampedAt(t: int): Message -> bool { (m: Message) => m.timestamp == t }

  lemma OneMoreWhere(messages: seq<Message>, m: Message, p: Message -> bool)
    ensures |Where(messages + [m], p)| == |Where(messages, p)| + if p(m) then 1 else 0
  {
    var n := |messages|;
    assert Where(messages + [m], p) == Where(messages, p) + if p(m) then {n} else {};
  }

  /**
   A key is tallied as often as messages have it; so are a partition, and a timestamp that is
   positive.
   */
  lemma {:induction false} TalliesCountMessages(messages: seq<Message>, g: string, t: int)
    ensures multiset(Keys(messages))[g] == |Where(messages, KeyedBy(g))|
    ensures multiset(Partitions(messages))[g] == |Where(messages, InPartition(g))|
    ensures multiset(Timestamps(messages))[t] == if t > 0 then |Where(messages, StampedAt(t))| else 0
  {
    if messages != [] {
      hide KeyGroup, Keys, Partitions, Timestamps, Where, IntText;
      var n, m := |messages| - 1, messages[|messages| - 1];
      var init := messages[..n];
      assert messages == init + [m];
      TalliesCountMessages(init, g, t);
      OneMoreMessage(init, m);
      OneMoreWhere(init, m, KeyedBy(g));
      OneMoreWhere(init, m, InPartition(g));
      OneMoreWhere(init, m, StampedAt(t));
    }
  }

  datatype Stats = Stats(partitions: map<string, nat>, partitionsLimited: bool,
                         keys: map<string, nat>, keysLimited: bool, nullKeys: nat, histogram: Option<TimeHistogram>)

  // The counters of the loop after some messages.
  ghost predicate Tallied(messages: seq<Message>, partitions: map<string, nat>, keys: map<string, nat>, nullKeys: nat,
                          timestamps: seq<int>, noTimestamp: nat) {
    && partitions == Tally(Partitions(messages)) && keys == Tally(Keys(messages))
    && |Keys(messages)| + nullKeys == |messages|
    && timestamps == Timestamps(messages) && |timestamps| + noTimestamp == |messages|
  }

  lemma OneMoreMessage(messages: seq<Message>, m: Message)
    ensures Partitions(messages + [m]) == Partitions(messages) + [IntText(m.partition)]
    ensures Keys(messages + [m]) ==
            match KeyGroup(m) case None => Keys(messages) case Some(key) => Keys(messages) + [key]
    ensures Timestamps(messages + [m]) ==
            if m.timestamp > 0 then Timestamps(messages) + [m.timestamp] else Timestamps(messages)
  {
    hide IntText, KeyGroup;
    assert (messages + [m])[..|messages|] == messages;
  }

  lemma TalliedStep(messages: seq<Message>, m: Message, partitions: map<string, nat>, keys: map<string, nat>,
                    nullKeys: nat,
                    timestamps: seq<int>, noTimestamp: nat)
    requires Tallied(messages, partitions, keys, nullKeys, timestamps, noTimestamp)
    ensures var g, timed := KeyGroup(m), m.timestamp > 0;
            Tallied(messages + [m], Raised(partitions, IntText(m.partition)),
                    if g.Some? then Raised(keys, g.value) else keys, if g.Some? then nullKeys else nullKeys + 1,
                    if timed then timestamps + [m.timestamp] else timestamps,
                    if timed then noTimestamp else noTimestamp + 1)
  {
    hide IntText, KeyGroup, Tally, Raised, Partitions, Keys, Timestamps;
    OneMoreMessage(messages, m);
    TallyStep(Partitions(messages), IntText(m.partition));
    if KeyGroup(m).Some? {
      TallyStep(Keys(messages), KeyGroup(m).value);
    }
  }

  // What the counts promise of the messages.
  ghost predicate Aggregates(stats: Stats, messages: seq<Message>, groupLimit: int) {
    && KeepsLargest(stats.partitions, stats.partitionsLimited, Tally(Partitions(messages)), groupLimit)
    && KeepsLargest(stats.keys, stats.keysLimited, Tally(Keys(messages)), groupLimit)
    && |Keys(messages)| + stats.nullKeys == |messages|
    && (stats.histogram.None? <==> messages == [])
    && (stats.histogram.Some? ==>
          var h := stats.histogram.value;
          && Total(h.buckets) + h.noTimestamp == |messages|
          && (if Timestamps(messages) == [] then h.buckets == [] else Exact(h.buckets, Timestamps(messages))))
  }

  /**
   Counts each message's partition and key, keeping the largest groups of each, and its
   timestamp in one bucket: the buckets and the messages without a timestamp add up to all.
   */
  method AggregateCounts(messages: seq<Message>, groupLimit: int) returns (stats: Stats)
    ensures Aggregates(stats, messages, groupLimit)
  {
    var partitions: map<string, nat>, keys: map<string, nat>, nullKeys: nat := map[], map[], 0;
    var timestamps: seq<int>, noTimestamp: nat := [], 0;
    assert messages[..|messages|] == messages;
    for i := 0 to |messages|
      invariant Tallied(messages[..i], partitions, keys, nullKeys, timestamps, noTimestamp)
    {
      hide IntText, KeyGroup, Tallied, Raised, TrimSpace;
      var m := messages[i];
      assert messages[..i + 1] == messages[..i] + [m];
      TalliedStep(messages[..i], m, partitions, keys, nullKeys, timestamps, noTimestamp);
      partitions := Raised(partitions, IntText(m.partition));
      var group := KeyGroup(m);
      if group.None? {
        nullKeys := nullKeys + 1;
      } else {
        keys := Raised(keys, group.value);
      }
      if m.timestamp > 0 {
        timestamps := timestamps + [m.timestamp];
      } else {
        noTimestamp := noTimestamp + 1;
      }
    }
    hide Tally, Partitions, Keys, Timestamps, KeepsLargest, Exact, Total;
    var topPartitions, partitionsLimited := TopGroups(partitions, groupLimit);
    var topKeys, keysLimited := TopGroups(keys, groupLimit);
    var histogram := BuildTimeHistogram(timestamps);
    if histogram.Some? {
      histogram := Some(histogram.value.(noTimestamp := noTimestamp));
    } else if noTimestamp > 0 {
      histogram := Some(TimeHistogram([], noTimestamp));
    }
    return Stats(topPartitions, partitionsLimited, topKeys, keysLimited, nullKeys, histogram);
  }
}
