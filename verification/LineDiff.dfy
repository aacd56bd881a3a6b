/**
 The line diff of two schema versions (backend/internal/kafkaconn/schema.go): a bottom-up
 table of longest-common-subsequence lengths and a greedy walk over it that emits an edit
 script.
 */
module LineDiff {

  // One line of an edit script; `line` is 1-based, in the before text for Equal and Remove
  // and in the after text for Add.
  datatype Op =
    | Equal(line: nat, text: string)
    | Remove(line: nat, text: string)
    | Add(line: nat, text: string)

  // --- Edit scripts ------------------------------------------------------------------------

  // The lines a script reads and the lines it writes.
  function Before(ops: seq<Op>): seq<string> {
    if ops == [] then [] else
      var last := ops[|ops| - 1];
      Before(ops[..|ops| - 1]) + (if last.Add? then [] else [last.text])
  }

  function After(ops: seq<Op>): seq<string> {
    if ops == [] then [] else
      var last := ops[|ops| - 1];
      After(ops[..|ops| - 1]) + (if last.Remove? then [] else [last.text])
  }

  // The lines a script keeps.
  function Kept(ops: seq<Op>): seq<string> {
    if ops == [] then [] else
      var last := ops[|ops| - 1];
      Kept(ops[..|ops| - 1]) + (if last.Equal? then [last.text] else [])
  }

  ghost predicate IsScript(ops: seq<Op>, a: seq<string>, b: seq<string>) {
    Before(ops) == a && After(ops) == b
  }

  // Added plus removed lines.
  function Cost(ops: seq<Op>): nat {
    if ops == [] then 0 else Cost(ops[..|ops| - 1]) + (if ops[|ops| - 1].Equal? then 0 else 1)
  }

  ghost predicate Numbered(ops: seq<Op>) {
    forall k :: 0 <= k < |ops| ==>
      ops[k].line == 1 + (if ops[k].Add? then |After(ops[..k])| else |Before(ops[..k])|)
  }

  lemma Append(ops: seq<Op>, op: Op)
    ensures Before(ops + [op]) == Before(ops) + (if op.Add? then [] else [op.text])
    ensures After(ops + [op]) == After(ops) + (if op.Remove? then [] else [op.text])
    ensures Kept(ops + [op]) == Kept(ops) + (if op.Equal? then [op.text] else [])
    ensures Cost(ops + [op]) == Cost(ops) + (if op.Equal? then 0 else 1)
    ensures Numbered(ops) && op.line == 1 + (if op.Add? then |After(ops)| else |Before(ops)|) ==> Numbered(ops + [op])
  {
    var more := ops + [op];
    assert more[..|ops|] == ops;
    forall k | 0 <= k < |ops|
      ensures more[..k] == ops[..k]
    {
    }
  }

  // Cost and kept lines determine each other.
  lemma {:induction false} CostOfKept(ops: seq<Op>)
    ensures Cost(ops) == |Before(ops)| + |After(ops)| - 2 * |Kept(ops)|
    ensures |Kept(ops)| <= |Before(ops)| && |Kept(ops)| <= |After(ops)|
  {
    if ops != [] {
      CostOfKept(ops[..|ops| - 1]);
    }
  }

  // --- Common subsequences -----------------------------------------------------------------

  ghost predicate IsSubsequence(c: seq<string>, a: seq<string>)
    decreases |a|
  {
    c == [] || (a != [] && ((c[0] == a[0] && IsSubsequence(c[1..], a[1..])) || IsSubsequence(c, a[1..])))
  }

  lemma {:induction false} SubsequenceAppend(c: seq<string>, a: seq<string>, x: seq<string>, keep: bool)
    requires IsSubsequence(c, a) && |x| == 1
    ensures IsSubsequence(if keep then c + x else c, a + x)
    decreases |a|
  {
    if a == [] {
      assert a + x == x && c + x == x;
      assert x[1..] == [];
    } else {
      assert (a + x)[1..] == a[1..] + x;
      if c == [] && keep {
        SubsequenceAppend(c, a[1..], x, keep);
        assert c + x == x;
      } else if c != [] && c[0] == a[0] && IsSubsequence(c[1..], a[1..]) {
        SubsequenceAppend(c[1..], a[1..], x, keep);
        assert (c + x)[1..] == c[1..] + x;
      } else if c != [] {
        SubsequenceAppend(c, a[1..], x, keep);
      }
    }
  }

  // What a script keeps is a common subsequence.
  lemma {:induction false} KeptIsCommon(ops: seq<Op>)
    ensures IsSubsequence(Kept(ops), Before(ops)) && IsSubsequence(Kept(ops), After(ops))
  {
    if ops != [] {
      var init, last := ops[..|ops| - 1], ops[|ops| - 1];
      KeptIsCommon(init);
      assert Kept(init) + [] == Kept(init) && Before(init) + [] == Before(init) && After(init) + [] == After(init);
      if !last.Add? { SubsequenceAppend(Kept(init), Before(init), [last.text], last.Equal?); }
      if !last.Remove? { SubsequenceAppend(Kept(init), After(init), [last.text], last.Equal?); }
    }
  }

  // --- The table ---------------------------------------------------------------------------

  // The recurrence the table is filled with.
  function Best(a: seq<string>, b: seq<string>, i: nat, j: nat): nat
    requires i <= |a| && j <= |b|
    decreases |a| - i + |b| - j
  {
    if i == |a| || j == |b| then 0
    else if a[i] == b[j] then Best(a, b, i + 1, j + 1) + 1
    else if Best(a, b, i + 1, j) >= Best(a, b, i, j + 1) then Best(a, b, i + 1, j)
    else Best(a, b, i, j + 1)
  }

  // One more line on either side is worth between zero and one.
  lemma {:induction false} BestSteps(a: seq<string>, b: seq<string>, i: nat, j: nat)
    requires i <= |a| && j <= |b|
    ensures i < |a| ==> Best(a, b, i + 1, j) <= Best(a, b, i, j) <= Best(a, b, i + 1, j) + 1
    ensures j < |b| ==> Best(a, b, i, j + 1) <= Best(a, b, i, j) <= Best(a, b, i, j + 1) + 1
    decreases |a| - i + |b| - j
  {
    if i < |a| && j < |b| {
      BestSteps(a, b, i + 1, j);
      BestSteps(a, b, i, j + 1);
      BestSteps(a, b, i + 1, j + 1);
    }
  }

  // No common subsequence is longer than the table says.
  lemma {:induction false} BestIsUpperBound(a: seq<string>, b: seq<string>, i: nat, j: nat, c: seq<string>)
    requires i <= |a| && j <= |b|
    requires IsSubsequence(c, a[i..]) && IsSubsequence(c, b[j..])
    ensures |c| <= Best(a, b, i, j)
    decreases |a| - i + |b| - j
  {
    if c != [] {
      assert a[i..][1..] == a[i + 1..] && b[j..][1..] == b[j + 1..];
      BestSteps(a, b, i, j);
      if IsSubsequence(c, a[i + 1..]) {
        BestIsUpperBound(a, b, i + 1, j, c);
      } else if IsSubsequence(c, b[j + 1..]) {
        BestIsUpperBound(a, b, i, j + 1, c);
      } else {
        BestIsUpperBound(a, b, i + 1, j + 1, c[1..]);
      }
    }
  }

  ghost predicate RowFilled(a: seq<string>, b: seq<string>, dp: array2<nat>, i: nat, from: int)
    requires dp.Length0 == |a| + 1 && dp.Length1 == |b| + 1 && i <= |a|
    reads dp
  {
    forall j :: 0 <= j <= |b| && from <= j ==> dp[i, j] == Best(a, b, i, j)
  }

  // The inner loop: row i from right to left, out of row i + 1.
  method FillRow(a: seq<string>, b: seq<string>, dp: array2<nat>, i: nat)
    requires dp.Length0 == |a| + 1 && dp.Length1 == |b| + 1 && i < |a|
    requires RowFilled(a, b, dp, i + 1, 0) && dp[i, |b|] == 0
    modifies dp
    ensures RowFilled(a, b, dp, i, 0)
    ensures forall r, c :: 0 <= r <= |a| && 0 <= c <= |b| && r != i ==> dp[r, c] == old(dp[r, c])
    ensures forall r :: 0 <= r <= |a| && r != i && old(RowFilled(a, b, dp, r, 0)) ==> RowFilled(a, b, dp, r, 0)
  {
    var j := |b| - 1;
    while j >= 0
      invariant -1 <= j < |b| && RowFilled(a, b, dp, i, j + 1)
      invariant forall r, c :: 0 <= r <= |a| && 0 <= c <= |b| && r != i ==> dp[r, c] == old(dp[r, c])
    {
      assert dp[i + 1, j] == Best(a, b, i + 1, j) && dp[i + 1, j + 1] == Best(a, b, i + 1, j + 1);
      if a[i] == b[j] {
        dp[i, j] := dp[i + 1, j + 1] + 1;
      } else if dp[i + 1, j] >= dp[i, j + 1] {
        dp[i, j] := dp[i + 1, j];
      } else {
        dp[i, j] := dp[i, j + 1];
      }
      j := j - 1;
    }
  }

  method FillTable(a: seq<string>, b: seq<string>) returns (dp: array2<nat>)
    ensures fresh(dp) && dp.Length0 == |a| + 1 && dp.Length1 == |b| + 1
    ensures forall i :: 0 <= i <= |a| ==> RowFilled(a, b, dp, i, 0)
  {
    dp := new nat[|a| + 1, |b| + 1]((_, _) => 0);
    var i := |a| - 1;
    while i >= 0
      invariant -1 <= i < |a|
      invariant forall r :: i < r <= |a| ==> RowFilled(a, b, dp, r, 0)
      invariant forall r :: 0 <= r <= i ==> dp[r, |b|] == 0
    {
      FillRow(a, b, dp, i);
      i := i - 1;
    }
  }

  // --- The walk ----------------------------------------------------------------------------

  // Prefixes of a script being built for a and b.
  ghost predicate Walked(ops: seq<Op>, a: seq<string>, b: seq<string>, i: nat, j: nat) {
    && i <= |a| && j <= |b| && Numbered(ops)
    && Before(ops) == a[..i] && After(ops) == b[..j]
    && |Kept(ops)| + Best(a, b, i, j) == Best(a, b, 0, 0)
  }

  lemma TakeOne(a: seq<string>, i: nat)
    ensures i < |a| ==> a[..i + 1] == a[..i] + [a[i]]
    ensures i <= |a| ==> a[..i] + [] == a[..i]
  {
  }

  lemma WalkedStep(ops: seq<Op>, op: Op, a: seq<string>, b: seq<string>, i: nat, j: nat)
    requires Walked(ops, a, b, i, j)
    requires match op
             case Equal(n, t) => i < |a| && j < |b| && n == i + 1 && t == a[i] == b[j]
             case Remove(n, t) => i < |a| && n == i + 1 && t == a[i] && Best(a, b, i + 1, j) == Best(a, b, i, j)
             case Add(n, t) => j < |b| && n == j + 1 && t == b[j] && Best(a, b, i, j + 1) == Best(a, b, i, j)
    ensures Walked(ops + [op], a, b, if op.Add? then i else i + 1, if op.Remove? then j else j + 1)
  {
    assert op.Equal? ==> Best(a, b, i, j) == Best(a, b, i + 1, j + 1) + 1;
    hide Best, Before, After, Kept, Numbered;
    Append(ops, op);
    TakeOne(a, i);
    TakeOne(b, j);
  }

  method Walk(a: seq<string>, b: seq<string>) returns (ops: seq<Op>)
    ensures IsScript(ops, a, b) && Numbered(ops) && |Kept(ops)| == Best(a, b, 0, 0)
  {
    var dp := FillTable(a, b);
    assert forall r, c :: 0 <= r <= |a| && 0 <= c <= |b| ==> dp[r, c] == Best(a, b, r, c) by {
      forall r, c | 0 <= r <= |a| && 0 <= c <= |b|
        ensures dp[r, c] == Best(a, b, r, c)
      {
        assert RowFilled(a, b, dp, r, 0);
      }
    }
    ops := [];
    var i, j := 0, 0;
    while i < |a| && j < |b|
      invariant Walked(ops, a, b, i, j)
      modifies {}
      decreases |a| - i + |b| - j
    {
      if a[i] == b[j] {
        WalkedStep(ops, Equal(i + 1, a[i]), a, b, i, j);
        ops := ops + [Equal(i + 1, a[i])];
        i, j := i + 1, j + 1;
      } else if dp[i + 1, j] >= dp[i, j + 1] {
        WalkedStep(ops, Remove(i + 1, a[i]), a, b, i, j);
        ops := ops + [Remove(i + 1, a[i])];
        i := i + 1;
      } else {
        WalkedStep(ops, Add(j + 1, b[j]), a, b, i, j);
        ops := ops + [Add(j + 1, b[j])];
        j := j + 1;
      }
    }
    while i < |a|
      invariant Walked(ops, a, b, i, j) && (i == |a| || j == |b|)
    {
      WalkedStep(ops, Remove(i + 1, a[i]), a, b, i, j);
      ops := ops + [Remove(i + 1, a[i])];
      i := i + 1;
    }
    while j < |b|
      invariant Walked(ops, a, b, i, j) && i == |a|
    {
      WalkedStep(ops, Add(j + 1, b[j]), a, b, i, j);
      ops := ops + [Add(j + 1, b[j])];
      j := j + 1;
    }
  }

  // --- Optimality --------------------------------------------------------------------------

  /** The table's corner is the length of a longest common subsequence. */
  lemma BestIsLongest(ops: seq<Op>, a: seq<string>, b: seq<string>, c: seq<string>)
    requires IsScript(ops, a, b) && |Kept(ops)| == Best(a, b, 0, 0)
    requires IsSubsequence(c, a) && IsSubsequence(c, b)
    ensures IsSubsequence(Kept(ops), a) && IsSubsequence(Kept(ops), b)
    ensures |c| <= |Kept(ops)|
  {
    KeptIsCommon(ops);
    assert a[0..] == a && b[0..] == b;
    BestIsUpperBound(a, b, 0, 0, c);
  }

  /** No edit script between the same texts adds and removes fewer lines. */
  lemma WalkIsCheapest(ops: seq<Op>, other: seq<Op>, a: seq<string>, b: seq<string>)
    requires IsScript(ops, a, b) && |Kept(ops)| == Best(a, b, 0, 0)
    requires IsScript(other, a, b)
    ensures Cost(ops) <= Cost(other)
  {
    KeptIsCommon(other);
    BestIsLongest(ops, a, b, Kept(other));
    CostOfKept(ops);
    CostOfKept(other);
  }
}
