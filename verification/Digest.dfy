/**
 The counting part of a digest: groups, histogram and projected fields
 (backend/internal/mcp/digest.go).
 */
module Digest {
  import opened Basics
  import opened Groups
  import opened JsonPath
  import opened Histogram

  type Tables = map<string, map<string, nat>>

  datatype FieldStats = FieldStats(field: string, valueCount: nat, values: map<string, nat>, truncated: bool)

  // The values a field has in the messages, in order; a message may have none.
  function FieldValues(messages: seq<Message>, field: string, marshal: Json -> string): seq<string> {
    if messages == [] then []
    else
      var before, m := FieldValues(messages[..|messages| - 1], field, marshal), messages[|messages| - 1];
      match DigestAnswer(m.decoded, field, marshal) case None => before case Some(value) => before + [value]
  }

  // The values of the first n fields.
  ghost predicate Projects(values: map<string, string>, m: Message, fields: seq<string>, n: nat,
                           marshal: Json -> string) {
    && n <= |fields|
    && (forall f :: f in values <==> f in fields[..n] && DigestAnswer(m.decoded, f, marshal).Some?)
    && (forall f :: f in values ==> DigestAnswer(m.decoded, f, marshal) == Some(values[f]))
  }

  lemma ProjectsStep(values: map<string, string>, m: Message, fields: seq<string>, n: nat, marshal: Json -> string)
    requires n < |fields| && Projects(values, m, fields, n, marshal)
    ensures match DigestAnswer(m.decoded, fields[n], marshal)
            case None => Projects(values, m, fields, n + 1, marshal)
            case Some(value) => Projects(values[fields[n] := value], m, fields, n + 1, marshal)
  {
    hide DigestAnswer;
    CatTake(fields, n);
    assert forall f :: f in fields[..n + 1] <==> f in fields[..n] || f == fields[n];
  }

  method ProjectFieldValues(m: Message, fields: seq<string>, marshal: Json -> string)
    returns (values: map<string, string>)
    ensures Projects(values, m, fields, |fields|, marshal)
  {
    values := map[];
    if m.decoded.None? { return; }
    assert Projects(values, m, fields, 0, marshal);
    hide Projects, DigestAnswer;
    for i := 0 to |fields|
      invariant Projects(values, m, fields, i, marshal)
    {
      ProjectsStep(values, m, fields, i, marshal);
      assert m.decoded == Some(m.decoded.value);
      var value := JsonPathLookup(m.decoded.value, fields[i], marshal);
      if value.Some? {
        values := values[fields[i] := value.value];
      }
    }
  }

  // The tables of the fields after some messages.
  ghost predicate Projected(counts: Tables, fields: seq<string>, messages: seq<Message>,
                            marshal: Json -> string) {
    && (forall f :: f in counts <==> f in fields)
    && (forall f :: f in counts ==> counts[f] == Tally(FieldValues(messages, f, marshal)))
  }

  lemma OneMoreValue(messages: seq<Message>, m: Message, field: string, marshal: Json -> string)
    ensures Tally(FieldValues(messages + [m], field, marshal)) ==
            match DigestAnswer(m.decoded, field, marshal)
            case None => Tally(FieldValues(messages, field, marshal))
            case Some(value) => Raised(Tally(FieldValues(messages, field, marshal)), value)
  {
    hide DigestAnswer, Tally, Raised;
    assert (messages + [m])[..|messages|] == messages;
    if DigestAnswer(m.decoded, field, marshal).Some? {
      TallyStep(FieldValues(messages, field, marshal), DigestAnswer(m.decoded, field, marshal).value);
    }
  }


  ghost function WithValue(field: string, value: string, marshal: Json -> string): Message -> bool {
    (m: Message) => DigestAnswer(m.decoded, field, marshal) == Some(value)
  }

  /** A value of a field is tallied as often as the lookup finds it. */
  lemma {:induction false} FieldTalliesCountMessages(messages: seq<Message>, field: string, value: string,
                                                     marshal: Json -> string)
    ensures multiset(FieldValues(messages, field, marshal))[value] ==
            |Where(messages, WithValue(field, value, marshal))|
  {
    if messages != [] {
      hide DigestAnswer, Where;
      var n, m := |messages| - 1, messages[|messages| - 1];
      assert messages == messages[..n] + [m];
      FieldTalliesCountMessages(messages[..n], field, value, marshal);
      OneMoreWhere(messages[..n], m, WithValue(field, value, marshal));
    }
  }

  // The values not in rest have been counted.
  ghost predicate Counting(done: Tables, counts: Tables, values: map<string, string>, rest: set<string>) {
    && rest <= values.Keys && values.Keys <= counts.Keys && done.Keys == counts.Keys
    && forall f :: f in counts ==>
         done[f] == if f in values && f !in rest then Raised(counts[f], values[f]) else counts[f]
  }

  lemma CountingStep(done: Tables, counts: Tables, values: map<string, string>, rest: set<string>, f: string)
    requires Counting(done, counts, values, rest) && f in rest
    ensures f in done && f in values && Counting(done[f := Raised(done[f], values[f])], counts, values, rest - {f})
  {
    hide Raised;
  }

  lemma CountingEnds(done: Tables, counts: Tables, values: map<string, string>, fields: seq<string>,
                     messages: seq<Message>, m: Message, marshal: Json -> string)
    requires Projected(counts, fields, messages, marshal) && Projects(values, m, fields, |fields|, marshal)
    ensures Counting(counts, counts, values, values.Keys)
    ensures Counting(done, counts, values, {}) ==> Projected(done, fields, messages + [m], marshal)
  {
    hide DigestAnswer, Raised, FieldValues, Tally;
    assert fields[..|fields|] == fields;
    if Counting(done, counts, values, {}) {
      forall f | f in done ensures done[f] == Tally(FieldValues(messages + [m], f, marshal)) {
        OneMoreValue(messages, m, f, marshal);
      }
    }
  }

  // One message's values, each counted in its field's table.
  method CountValues(counts: Tables, fields: seq<string>, ghost messages: seq<Message>, m: Message,
                     marshal: Json -> string)
    returns (done: Tables)
    requires Projected(counts, fields, messages, marshal)
    ensures Projected(done, fields, messages + [m], marshal)
  {
    hide Projected, Projects, Counting, Raised;
    var values := ProjectFieldValues(m, fields, marshal);
    done := counts;
    CountingEnds(done, counts, values, fields, messages, m, marshal);
    var rest := values.Keys;
    while rest != {}
      invariant Counting(done, counts, values, rest)
      decreases |rest|
    {
      var f :| f in rest;
      CountingStep(done, counts, values, rest, f);
      done := done[f := Raised(done[f], values[f])];
      rest := rest - {f};
    }
    CountingEnds(done, counts, values, fields, messages, m, marshal);
  }

  // The first n fields have a table, empty as yet.
  ghost predicate EmptyTables(counts: Tables, fields: seq<string>, n: nat) {
    n <= |fields| && (forall f :: f in counts <==> f in fields[..n]) && forall f :: f in counts ==> counts[f] == map[]
  }

  lemma EmptyTablesStep(counts: Tables, fields: seq<string>, n: nat)
    requires n < |fields| && EmptyTables(counts, fields, n)
    ensures EmptyTables(counts[fields[n] := map[]], fields, n + 1)
  {
    CatTake(fields, n);
    assert forall f :: f in fields[..n + 1] <==> f in fields[..n] || f == fields[n];
  }

  lemma NoValues(counts: Tables, fields: seq<string>, marshal: Json -> string)
    requires EmptyTables(counts, fields, |fields|)
    ensures Projected(counts, fields, [], marshal)
  {
    assert fields[..|fields|] == fields;
    assert forall f :: Tally(FieldValues([], f, marshal)) == map[];
    hide Tally, FieldValues;
  }

  // Each field with its number of distinct values and the most frequent of them.
  ghost predicate Summarizes(s: FieldStats, field: string, messages: seq<Message>, topN: int, marshal: Json -> string) {
    var counts := Tally(FieldValues(messages, field, marshal));
    s.field == field && s.valueCount == |counts| && KeepsLargest(s.values, s.truncated, counts, topN)
  }

  method FieldStatistics(messages: seq<Message>, fields: seq<string>, topN: int, marshal: Json -> string)
    returns (stats: seq<FieldStats>)
    ensures |stats| == |fields|
    ensures forall i :: 0 <= i < |fields| ==> Summarizes(stats[i], fields[i], messages, topN, marshal)
  {
    var counts := CountFields(messages, fields, marshal);
    hide *;
    stats := [];
    for i := 0 to |fields|
      invariant |stats| == i
      invariant forall j :: 0 <= j < i ==> Summarizes(stats[j], fields[j], messages, topN, marshal)
    {
      var summary := Summarize(counts, fields, i, messages, topN, marshal);
      stats := stats + [summary];
    }
  }

  method Summarize(counts: Tables, fields: seq<string>, i: nat, ghost messages: seq<Message>, topN: int,
                   ghost marshal: Json -> string)
    returns (summary: FieldStats)
    requires i < |fields| && Projected(counts, fields, messages, marshal)
    ensures Summarizes(summary, fields[i], messages, topN, marshal)
  {
    hide FieldValues, Tally, KeepsLargest;
    assert fields[i] in counts;
    var values, truncated := TopGroups(counts[fields[i]], topN);
    return FieldStats(fields[i], |counts[fields[i]]|, values, truncated);
  }

  method CountFields(messages: seq<Message>, fields: seq<string>, marshal: Json -> string) returns (counts: Tables)
    ensures Projected(counts, fields, messages, marshal)
  {
    counts := map[];
    assert EmptyTables(counts, fields, 0);
    assert messages[..|messages|] == messages && messages[..0] == [];
    hide Projected, EmptyTables;
    for i := 0 to |fields|
      invariant EmptyTables(counts, fields, i)
    {
      EmptyTablesStep(counts, fields, i);
      counts := counts[fields[i] := map[]];
    }
    NoValues(counts, fields, marshal);
    for i := 0 to |messages|
      invariant Projected(counts, fields, messages[..i], marshal)
    {
      CatTake(messages, i);
      counts := CountValues(counts, fields, messages[..i], messages[i], marshal);
    }
  }

  /**
   The largest groups of the exact tallies of partitions, keys and field values, the number
   of messages without a key, and the histogram: keys and null keys add up to all messages,
   and so do the buckets and the messages without a timestamp.
   */
  method AggregateDigest(messages: seq<Message>, fields: seq<string>, groupLimit: int, topN: int,
                         marshal: Json -> string)
    returns (stats: Stats, fieldStats: seq<FieldStats>)
    ensures Aggregates(stats, messages, groupLimit)
    ensures |fieldStats| == |fields|
    ensures forall i :: 0 <= i < |fields| ==> Summarizes(fieldStats[i], fields[i], messages, topN, marshal)
  {
    hide Aggregates, Summarizes;
    stats := AggregateCounts(messages, groupLimit);
    fieldStats := FieldStatistics(messages, fields, topN, marshal);
  }
}
