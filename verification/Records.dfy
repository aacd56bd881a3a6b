/** Records of a partitioned topic and the resume offsets both consumers keep. */
module Records {

  // The body is everything a filter or a decoder looks at.
  datatype Record<B> = Record(partition: int, offset: int, body: B)

  type Offsets = map<int, int>

  // nextPartitionOffset
  function Advance<B>(next: Offsets, r: Record<B>): Offsets {
    if r.partition !in next || r.offset + 1 > next[r.partition] then next[r.partition := r.offset + 1] else next
  }

  function ResumeOffsets<B>(records: seq<Record<B>>): Offsets {
    if records == [] then map[]
    else Advance(ResumeOffsets(records[..|records| - 1]), records[|records| - 1])
  }

  /** Per partition, the resume offset is one more than the greatest offset seen in it. */
  lemma {:induction false} ResumeOffsetsAreMaxima<B>(records: seq<Record<B>>)
    ensures forall i :: 0 <= i < |records| ==>
              && records[i].partition in ResumeOffsets(records)
              && records[i].offset < ResumeOffsets(records)[records[i].partition]
    ensures forall p :: p in ResumeOffsets(records) ==>
              exists i :: && 0 <= i < |records| && records[i].partition == p
                          && records[i].offset + 1 == ResumeOffsets(records)[p]
  {
    if records != [] {
      var init, last, n := records[..|records| - 1], records[|records| - 1], |records| - 1;
      ResumeOffsetsAreMaxima(init);
      var before, after := ResumeOffsets(init), ResumeOffsets(records);
      forall p | p in after
        ensures exists i :: 0 <= i < |records| && records[i].partition == p && records[i].offset + 1 == after[p]
      {
        if p == last.partition && after[p] == last.offset + 1 {
          assert records[n].partition == p;
        } else {
          var i :| 0 <= i < |init| && init[i].partition == p && init[i].offset + 1 == before[p];
          assert records[i] == init[i];
        }
      }
    }
  }

  // The records a predicate accepts, in order.
  function Matching<B>(records: seq<Record<B>>, accepts: Record<B> -> bool): seq<Record<B>> {
    if records == [] then []
    else
      var last := records[|records| - 1];
      Matching(records[..|records| - 1], accepts) + (if accepts(last) then [last] else [])
  }

  lemma {:induction false} MatchingCat<B>(a: seq<Record<B>>, b: seq<Record<B>>, accepts: Record<B> -> bool)
    ensures Matching(a + b, accepts) == Matching(a, accepts) + Matching(b, accepts)
  {
    if b == [] {
      assert a + b == a;
    } else {
      var init, last := b[..|b| - 1], b[|b| - 1];
      assert (a + b)[..|a + b| - 1] == a + init;
      MatchingCat(a, init, accepts);
    }
  }
}
