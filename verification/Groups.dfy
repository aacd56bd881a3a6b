/** Tables of counts and their largest groups (backend/internal/mcp/digest.go). */
module Groups {
  import opened Basics

  // How often each group occurs.
  function Tally(groups: seq<string>): map<string, nat> { map g | g in groups :: multiset(groups)[g] }

  function Raised(counts: map<string, nat>, g: string): map<string, nat> {
    counts[g := (if g in counts then counts[g] else 0) + 1]
  }

  lemma TallyStep(groups: seq<string>, g: string)
    ensures Tally(groups + [g]) == Raised(Tally(groups), g)
  {
    assert multiset(groups + [g]) == multiset(groups) + multiset{g};
    assert forall h :: h in groups + [g] <==> h in groups || h == g;
    assert g !in groups ==> multiset(groups)[g] == 0;
  }

  // The order of Go strings.
  predicate Less(s: string, t: string) {
    t != "" && (s == "" || s[0] < t[0] || (s[0] == t[0] && Less(s[1..], t[1..])))
  }

  lemma {:induction false} LessIsTotal(s: string, t: string)
    ensures s == t <==> !Less(s, t) && !Less(t, s)
    ensures !(Less(s, t) && Less(t, s))
  {
    if s != "" && t != "" {
      LessIsTotal(s[1..], t[1..]);
      assert s == [s[0]] + s[1..] && t == [t[0]] + t[1..];
    }
  }

  lemma {:induction false} LessIsTransitive(s: string, t: string, u: string)
    requires Less(s, t) && Less(t, u)
    ensures Less(s, u)
  {
    if s != "" && s[0] == t[0] == u[0] {
      LessIsTransitive(s[1..], t[1..], u[1..]);
    }
  }

  // s is a proper prefix of t, or has the smaller character at the first difference.
  ghost predicate ComesFirst(s: string, t: string) {
    || (|s| < |t| && t[..|s|] == s)
    || exists k :: SmallerAt(s, t, k)
  }

  ghost predicate SmallerAt(s: string, t: string, k: int) {
    0 <= k < |s| && k < |t| && s[..k] == t[..k] && s[k] < t[k]
  }

  lemma {:induction false} LessIsAlphabetical(s: string, t: string)
    ensures Less(s, t) <==> ComesFirst(s, t)
  {
    if s == "" || t == "" {
    } else if s[0] != t[0] {
      assert s[..0] == t[..0];
      assert SmallerAt(s, t, 0) <==> s[0] < t[0];
      forall k | 0 < k <= |s| && k <= |t| ensures s[..k] != t[..k] {
        assert s[..k][0] == s[0] && t[..k][0] == t[0];
      }
    } else {
      LessIsAlphabetical(s[1..], t[1..]);
      SharedFront(s[0], s[1..], t[1..]);
      assert s == [s[0]] + s[1..] && t == [t[0]] + t[1..];
    }
  }

  lemma SharedFront(c: char, s: string, t: string)
    ensures ComesFirst([c] + s, [c] + t) <==> ComesFirst(s, t)
  {
    var s', t' := [c] + s, [c] + t;
    assert s'[1..] == s && t'[1..] == t;
    if |s| < |t| {
      assert t'[..|s'|] == [c] + t[..|s|];
    }
    forall k | 0 <= k < |s| && k < |t| ensures SmallerAt(s', t', k + 1) <==> SmallerAt(s, t, k) {
      assert s'[..k + 1] == [c] + s[..k] && t'[..k + 1] == [c] + t[..k];
      assert s'[..k + 1][1..] == s[..k] && t'[..k + 1][1..] == t[..k];
    }
    if k :| SmallerAt(s', t', k) {
      assert SmallerAt(s, t, k - 1);
    }
    if k :| SmallerAt(s, t, k) {
      assert SmallerAt(s', t', k + 1);
    }
  }

  // Larger counts first, equal counts by name.
  predicate Precedes(counts: map<string, nat>, a: string, b: string)
    requires a in counts && b in counts
  {
    counts[a] > counts[b] || (counts[a] == counts[b] && Less(a, b))
  }

  lemma PrecedesIsOrder(counts: map<string, nat>, a: string, b: string, c: string)
    requires a in counts && b in counts && c in counts
    ensures a == b <==> !Precedes(counts, a, b) && !Precedes(counts, b, a)
    ensures !(Precedes(counts, a, b) && Precedes(counts, b, a))
    ensures Precedes(counts, a, b) && Precedes(counts, b, c) ==> Precedes(counts, a, c)
  {
    LessIsTotal(a, b);
    if Less(a, b) && Less(b, c) {
      LessIsTransitive(a, b, c);
    }
  }

  // All groups, each once, in that order.
  ghost predicate Sorted(counts: map<string, nat>, names: seq<string>) {
    && (forall g :: g in names <==> g in counts)
    && (forall i, j :: 0 <= i < j < |names| ==> Precedes(counts, names[i], names[j]))
  }

  // The group of a set that precedes the others.
  method First(counts: map<string, nat>, groups: set<string>) returns (first: string)
    requires groups != {} && groups <= counts.Keys
    ensures first in groups && forall g :: g in groups && g != first ==> Precedes(counts, first, g)
  {
    var rest := groups;
    first :| first in rest;
    rest := rest - {first};
    while rest != {}
      invariant rest <= groups && first in groups && first !in rest
      invariant forall g :: g in groups && g !in rest && g != first ==> Precedes(counts, first, g)
      decreases |rest|
    {
      var g :| g in rest;
      rest := rest - {g};
      PrecedesIsOrder(counts, first, g, g);
      if Precedes(counts, g, first) {
        forall h | h in groups && h !in rest && h != g ensures Precedes(counts, g, h) {
          PrecedesIsOrder(counts, g, first, h);
        }
        first := g;
      }
    }
  }

  // sort.Slice on the names.
  method SortGroups(counts: map<string, nat>) returns (names: seq<string>)
    ensures Sorted(counts, names)
  {
    names := [];
    var rest := counts.Keys;
    while rest != {}
      invariant rest <= counts.Keys
      invariant forall g :: g in names <==> g in counts && g !in rest
      invariant forall i, j :: 0 <= i < j < |names| ==> Precedes(counts, names[i], names[j])
      invariant forall i, g :: 0 <= i < |names| && g in rest ==> Precedes(counts, names[i], g)
      decreases |rest|
    {
      hide Precedes;
      var first := First(counts, rest);
      names := names + [first];
      rest := rest - {first};
    }
  }

  // What is kept of a table: its largest groups, with their counts. A group that is dropped has
  // a smaller count than any that is kept, or the same count and a name that comes later.
  ghost predicate KeepsLargest(top: map<string, nat>, truncated: bool, counts: map<string, nat>, limit: int) {
    if limit <= 0 then top == map[] && !truncated
    else
      && top.Keys <= counts.Keys && |top| == Min(limit, |counts|) && (truncated <==> |counts| > limit)
      && (forall g :: g in top ==> top[g] == counts[g])
      && (forall g, h :: g in top && h in counts && h !in top ==>
            counts[g] > counts[h] || (counts[g] == counts[h] && ComesFirst(g, h)))
  }

  lemma SortedDistinct(counts: map<string, nat>, names: seq<string>)
    requires Sorted(counts, names)
    ensures Distinct(names) && |names| == |counts|
  {
    forall i, j | 0 <= i < j < |names| ensures names[i] != names[j] {
      PrecedesIsOrder(counts, names[i], names[j], names[j]);
    }
    DistinctSize(names, counts.Keys);
  }

  /** Keeps the `limit` largest groups, ties by name, with the counts they have. */
  method TopGroups(counts: map<string, nat>, limit: int) returns (top: map<string, nat>, truncated: bool)
    ensures KeepsLargest(top, truncated, counts, limit)
  {
    if |counts| == 0 || limit <= 0 { return map[], false; }
    var names := SortGroups(counts);
    SortedDistinct(counts, names);
    truncated := |names| > limit;
    ghost var all := names;
    if truncated {
      names := names[..limit];
    }
    top := map[];
    for i := 0 to |names|
      invariant forall g :: g in top <==> g in names[..i]
      invariant forall g :: g in top ==> g in counts && top[g] == counts[g]
    {
      assert names[i] == all[i] && names[i] in all;
      top := top[names[i] := counts[names[i]]];
    }
    FrontPrecedes(counts, all, |names|, top);
  }

  lemma FrontPrecedes(counts: map<string, nat>, all: seq<string>, n: nat, top: map<string, nat>)
    requires Sorted(counts, all) && n <= |all| && forall g :: g in top <==> g in all[..n]
    ensures |top| == n && top.Keys <= counts.Keys
    ensures forall g, h :: g in top && h in counts && h !in top ==>
              counts[g] > counts[h] || (counts[g] == counts[h] && ComesFirst(g, h))
  {
    hide ComesFirst, Less;
    SortedDistinct(counts, all);
    DistinctSize(all[..n], top.Keys);
    forall g | g in top ensures g in counts {
      assert g in all;
    }
    forall k | 0 <= k < n ensures all[k] in top {
      assert all[..n][k] == all[k];
    }
    forall g, h | g in top && h in counts && h !in top
      ensures counts[g] > counts[h] || (counts[g] == counts[h] && ComesFirst(g, h))
    {
      LessIsAlphabetical(g, h);
      var i :| 0 <= i < n && all[..n][i] == g;
      var j :| 0 <= j < |all| && all[j] == h;
    }
  }
}
