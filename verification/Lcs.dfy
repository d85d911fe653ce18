/** The longest-common-subsequence table and backtrack shared by the line diff and by both
    blame implementations. `Trace` says which pairs the backtrack picks; the lemmas show that
    this greedy, one-way tie-breaking choice is a longest matching. */
module Lcs {

  type Pair = (nat, nat)

  /** `ps` pairs equal elements of `a` and `b`, strictly increasing on both sides. */
  ghost predicate IsMatching<T>(a: seq<T>, b: seq<T>, ps: seq<Pair>) {
    && (forall k :: 0 <= k < |ps| ==> ps[k].0 < |a| && ps[k].1 < |b| && a[ps[k].0] == b[ps[k].1])
    && (forall k, l :: 0 <= k < l < |ps| ==> ps[k].0 < ps[l].0 && ps[k].1 < ps[l].1)
  }

  /** Every pair lies in the first `i` elements of one side and the first `j` of the other. */
  ghost predicate Within(ps: seq<Pair>, i: nat, j: nat) {
    forall k :: 0 <= k < |ps| ==> ps[k].0 < i && ps[k].1 < j
  }

  /** `at` embeds `c` into `a`: `c` is a subsequence of `a`. */
  ghost predicate Embeds<T>(c: seq<T>, a: seq<T>, at: seq<nat>) {
    && |at| == |c|
    && (forall k :: 0 <= k < |c| ==> at[k] < |a| && a[at[k]] == c[k])
    && (forall k, l :: 0 <= k < l < |at| ==> at[k] < at[l])
  }

  /** The value the table holds at (i, j). */
  function Cell<T(==)>(a: seq<T>, b: seq<T>, i: nat, j: nat): nat
    requires i <= |a| && j <= |b|
  {
    if i == 0 || j == 0 then 0
    else if a[i - 1] == b[j - 1] then Cell(a, b, i - 1, j - 1) + 1
    else
      var up := Cell(a, b, i - 1, j);
      var left := Cell(a, b, i, j - 1);
      if up >= left then up else left
  }

  /** The pairs the backtrack collects from (i, j), in increasing order. */
  function Trace<T(==)>(a: seq<T>, b: seq<T>, i: nat, j: nat): seq<Pair>
    requires i <= |a| && j <= |b|
  {
    if i == 0 || j == 0 then []
    else if a[i - 1] == b[j - 1] then Trace(a, b, i - 1, j - 1) + [(i - 1, j - 1)]
    else if Cell(a, b, i - 1, j) >= Cell(a, b, i, j - 1) then Trace(a, b, i - 1, j)
    else Trace(a, b, i, j - 1)
  }

  function Pairs<T(==)>(a: seq<T>, b: seq<T>): seq<Pair> {
    Trace(a, b, |a|, |b|)
  }

  lemma {:induction false} TraceLength<T>(a: seq<T>, b: seq<T>, i: nat, j: nat)
    requires i <= |a| && j <= |b|
    ensures |Trace(a, b, i, j)| == Cell(a, b, i, j)
    decreases i + j
  {
    if i == 0 || j == 0 {
    } else if a[i - 1] == b[j - 1] {
      TraceLength(a, b, i - 1, j - 1);
    } else if Cell(a, b, i - 1, j) >= Cell(a, b, i, j - 1) {
      TraceLength(a, b, i - 1, j);
    } else {
      TraceLength(a, b, i, j - 1);
    }
  }

  lemma ExtendMatching<T>(a: seq<T>, b: seq<T>, ps: seq<Pair>, i: nat, j: nat)
    requires i < |a| && j < |b| && a[i] == b[j]
    requires IsMatching(a, b, ps) && Within(ps, i, j)
    ensures IsMatching(a, b, ps + [(i, j)]) && Within(ps + [(i, j)], i + 1, j + 1)
  {
  }

  lemma WithinWider(ps: seq<Pair>, i: nat, j: nat, i': nat, j': nat)
    requires Within(ps, i, j) && i <= i' && j <= j'
    ensures Within(ps, i', j')
  {
  }

  /** One step back and the step it takes. */
  lemma TraceStep<T>(a: seq<T>, b: seq<T>, i: nat, j: nat) returns (x: nat, y: nat)
    requires 0 < i <= |a| && 0 < j <= |b| && a[i - 1] != b[j - 1]
    ensures x <= i && y <= j && x + y < i + j && Trace(a, b, i, j) == Trace(a, b, x, y)
  {
    if Cell(a, b, i - 1, j) >= Cell(a, b, i, j - 1) {
      x, y := i - 1, j;
    } else {
      x, y := i, j - 1;
    }
  }

  lemma TraceTakes<T>(a: seq<T>, b: seq<T>, i: nat, j: nat)
    requires 0 < i <= |a| && 0 < j <= |b| && a[i - 1] == b[j - 1]
    ensures Trace(a, b, i, j) == Trace(a, b, i - 1, j - 1) + [(i - 1, j - 1)]
  {
  }

  lemma {:induction false} TraceMatches<T>(a: seq<T>, b: seq<T>, i: nat, j: nat) returns (ps: seq<Pair>)
    requires i <= |a| && j <= |b|
    ensures ps == Trace(a, b, i, j) && IsMatching(a, b, ps) && Within(ps, i, j)
    decreases i + j
  {
    if i == 0 || j == 0 {
      ps := [];
    } else if a[i - 1] == b[j - 1] {
      var qs := TraceMatches(a, b, i - 1, j - 1);
      ExtendMatching(a, b, qs, i - 1, j - 1);
      ps := qs + [(i - 1, j - 1)];
      TraceTakes(a, b, i, j);
    } else {
      var x, y := TraceStep(a, b, i, j);
      ps := TraceMatches(a, b, x, y);
      WithinWider(ps, x, y, i, j);
    }
  }

  lemma {:induction false} TraceIsMatching<T>(a: seq<T>, b: seq<T>, i: nat, j: nat)
    requires i <= |a| && j <= |b|
    ensures IsMatching(a, b, Trace(a, b, i, j)) && Within(Trace(a, b, i, j), i, j)
  {
    var ps := TraceMatches(a, b, i, j);
  }

  /** No matching of the two prefixes is longer than the table entry. */
  lemma {:induction false} MatchingBound<T>(a: seq<T>, b: seq<T>, i: nat, j: nat, ps: seq<Pair>)
    requires i <= |a| && j <= |b|
    requires IsMatching(a, b, ps) && Within(ps, i, j)
    ensures |ps| <= Cell(a, b, i, j)
    decreases i + j
  {
    if ps != [] {
      var rest, last := ps[..|ps| - 1], ps[|ps| - 1];
      if a[i - 1] == b[j - 1] {
        MatchingBound(a, b, i - 1, j - 1, rest);
      } else if last.0 == i - 1 {
        MatchingBound(a, b, i, j - 1, ps);
      } else {
        MatchingBound(a, b, i - 1, j, ps);
      }
    }
  }

  /** The collected pairs form a matching, and a longest one. */
  lemma PairsAreLongestMatching<T>(a: seq<T>, b: seq<T>)
    ensures IsMatching(a, b, Pairs(a, b))
    ensures forall ps :: IsMatching(a, b, ps) ==> |ps| <= |Pairs(a, b)|
  {
    TraceIsMatching(a, b, |a|, |b|);
    TraceLength(a, b, |a|, |b|);
    forall ps | IsMatching(a, b, ps)
      ensures |ps| <= |Pairs(a, b)|
    {
      MatchingBound(a, b, |a|, |b|, ps);
    }
  }

  // ---- which of the longest matchings

  ghost predicate IsLongest<T>(a: seq<T>, b: seq<T>, i: nat, j: nat, ps: seq<Pair>)
    requires i <= |a| && j <= |b|
  {
    IsMatching(a, b, ps) && Within(ps, i, j) && |ps| == Cell(a, b, i, j)
  }

  /** Pair by pair, `ps` lies no further on in the second sequence than `qs`. */
  ghost predicate NoLater(ps: seq<Pair>, qs: seq<Pair>) {
    |ps| == |qs| && forall k :: 0 <= k < |ps| ==> ps[k].1 <= qs[k].1
  }

  /** The first `m` pairs of one matching and the pairs from `n` on of another. */
  lemma Joined<T>(a: seq<T>, b: seq<T>, ps: seq<Pair>, m: nat, qs: seq<Pair>, n: nat) returns (rs: seq<Pair>)
    requires IsMatching(a, b, ps) && IsMatching(a, b, qs) && m <= |ps| && n <= |qs|
    requires m > 0 && n < |qs| ==> ps[m - 1].0 < qs[n].0 && ps[m - 1].1 < qs[n].1
    ensures rs == ps[..m] + qs[n..] && IsMatching(a, b, rs)
  {
    rs := ps[..m] + qs[n..];
    forall k, l | 0 <= k < l < |rs|
      ensures rs[k].0 < rs[l].0 && rs[k].1 < rs[l].1
    {
      if k < m <= l {
        assert ps[k].0 <= ps[m - 1].0 && ps[k].1 <= ps[m - 1].1;
        assert qs[n].0 <= qs[n + (l - m)].0 && qs[n].1 <= qs[n + (l - m)].1;
      }
    }
  }

  lemma LastOfLater(ps: seq<Pair>, qs: seq<Pair>) returns (k: nat)
    requires |ps| == |qs| && !NoLater(ps, qs)
    ensures k < |ps| && ps[k].1 > qs[k].1 && forall l :: k < l < |ps| ==> ps[l].1 <= qs[l].1
  {
    k := |ps| - 1;
    while ps[k].1 <= qs[k].1
      invariant k < |ps| && forall l :: k < l < |ps| ==> ps[l].1 <= qs[l].1
      invariant exists l :: 0 <= l <= k && ps[l].1 > qs[l].1
      decreases k
    {
      k := k - 1;
    }
  }

  lemma WithinByLast<T>(a: seq<T>, b: seq<T>, ps: seq<Pair>, i: nat, j: nat)
    requires IsMatching(a, b, ps) && (ps != [] ==> ps[|ps| - 1].0 < i && ps[|ps| - 1].1 < j)
    ensures Within(ps, i, j)
  {
    forall k | 0 <= k < |ps|
      ensures ps[k].0 < i && ps[k].1 < j
    {
      assert k < |ps| - 1 ==> ps[k].0 < ps[|ps| - 1].0 && ps[k].1 < ps[|ps| - 1].1;
    }
  }

  /** A longest matching that needs the last element of `a` against one, `ts`, that does without it and
      is latest among those: where `qs` would be later, the two could be exchanged. */
  lemma ExchangeIsLonger<T>(a: seq<T>, b: seq<T>, i: nat, j: nat, qs: seq<Pair>, ts: seq<Pair>, k: nat)
    returns (rs: seq<Pair>)
    requires 0 < i <= |a| && j <= |b| && IsLongest(a, b, i, j, qs)
    requires IsMatching(a, b, ts) && Within(ts, i - 1, j) && |ts| == |qs|
    requires k < |qs| && qs[k].1 > ts[k].1 && forall l :: k < l < |qs| ==> qs[l].1 <= ts[l].1
    requires qs[|qs| - 1].0 == i - 1
    ensures IsMatching(a, b, rs) && Within(rs, i - 1, j) && |rs| == |qs| && rs[k].1 > ts[k].1
  {
    if qs[k].0 > ts[k].0 {
      var longer := Joined(a, b, ts, k + 1, qs, k);
      WithinByLast(a, b, longer, i, j);
      MatchingBound(a, b, i, j, longer);
      assert false;
    }
    assert k < |qs| - 1;
    assert ts[k].0 < ts[k + 1].0 && qs[k].1 < qs[k + 1].1;
    rs := Joined(a, b, qs, k + 1, ts, k + 1);
    WithinByLast(a, b, rs, i - 1, j);
  }

  /** Of all longest matchings the backtrack takes the one that lies furthest on in the second
      sequence, at every pair at once. */
  lemma {:induction false} TraceIsLatest<T>(a: seq<T>, b: seq<T>, i: nat, j: nat, qs: seq<Pair>)
    requires i <= |a| && j <= |b| && IsLongest(a, b, i, j, qs)
    ensures NoLater(qs, Trace(a, b, i, j))
    decreases i + j
  {
    var ts := Trace(a, b, i, j);
    TraceLength(a, b, i, j);
    if qs != [] {
      var pre, last := qs[..|qs| - 1], qs[|qs| - 1];
      if a[i - 1] == b[j - 1] {
        TraceIsLatest(a, b, i - 1, j - 1, pre);
      } else if Cell(a, b, i - 1, j) >= Cell(a, b, i, j - 1) {
        LatestWithoutFirst(a, b, i, j, qs);
      } else {
        if last.1 == j - 1 {
          WithinByLast(a, b, qs, i - 1, j);
          MatchingBound(a, b, i - 1, j, qs);
          assert false;
        }
        WithinByLast(a, b, qs, i, j - 1);
        TraceIsLatest(a, b, i, j - 1, qs);
      }
    }
  }

  lemma {:induction false} LatestWithoutFirst<T>(a: seq<T>, b: seq<T>, i: nat, j: nat, qs: seq<Pair>)
    requires 0 < i <= |a| && j <= |b| && qs != [] && IsLongest(a, b, i, j, qs) && Cell(a, b, i - 1, j) == Cell(a, b, i, j)
    ensures NoLater(qs, Trace(a, b, i - 1, j))
    decreases i + j, 0
  {
    var ts := Trace(a, b, i - 1, j);
    TraceLength(a, b, i - 1, j);
    TraceIsMatching(a, b, i - 1, j);
    if qs[|qs| - 1].0 < i - 1 {
      WithinByLast(a, b, qs, i - 1, j);
      TraceIsLatest(a, b, i - 1, j, qs);
    } else if !NoLater(qs, ts) {
      var k := LastOfLater(qs, ts);
      var rs := ExchangeIsLonger(a, b, i, j, qs, ts, k);
      TraceIsLatest(a, b, i - 1, j, rs);
      assert false;
    }
  }

  /** So the tie rule decides: no longest matching has any of its pairs later in `b`. */
  lemma PairsAreLatest<T>(a: seq<T>, b: seq<T>, qs: seq<Pair>)
    requires IsMatching(a, b, qs) && |qs| == |Pairs(a, b)|
    ensures NoLater(qs, Pairs(a, b))
  {
    TraceLength(a, b, |a|, |b|);
    TraceIsLatest(a, b, |a|, |b|, qs);
  }

  /** The elements picked out by the pairs are a common subsequence. */
  function Picked<T>(a: seq<T>, ps: seq<Pair>): seq<T>
    requires forall k :: 0 <= k < |ps| ==> ps[k].0 < |a|
  {
    seq(|ps|, k requires 0 <= k < |ps| => a[ps[k].0])
  }

  /** `c` is a common subsequence of `a` and `b`. */
  ghost predicate IsCommonSubsequence<T>(c: seq<T>, a: seq<T>, b: seq<T>) {
    (exists p :: Embeds(c, a, p)) && (exists q :: Embeds(c, b, q))
  }

  lemma PickedIsCommon<T>(a: seq<T>, b: seq<T>, ps: seq<Pair>)
    requires IsMatching(a, b, ps)
    ensures IsCommonSubsequence(Picked(a, ps), a, b)
  {
    assert Embeds(Picked(a, ps), a, seq(|ps|, k requires 0 <= k < |ps| => ps[k].0));
    assert Embeds(Picked(a, ps), b, seq(|ps|, k requires 0 <= k < |ps| => ps[k].1));
  }

  lemma CommonIsMatched<T>(a: seq<T>, b: seq<T>, c: seq<T>) returns (ps: seq<Pair>)
    requires IsCommonSubsequence(c, a, b)
    ensures IsMatching(a, b, ps) && |ps| == |c|
  {
    var p :| Embeds(c, a, p);
    var q :| Embeds(c, b, q);
    ps := seq(|c|, k requires 0 <= k < |c| => (p[k], q[k]));
  }

  /** The backtrack yields a longest common subsequence of the two inputs. */
  lemma PickedIsLongestCommonSubsequence<T>(a: seq<T>, b: seq<T>)
    ensures IsMatching(a, b, Pairs(a, b))
    ensures IsCommonSubsequence(Picked(a, Pairs(a, b)), a, b)
    ensures forall c :: IsCommonSubsequence(c, a, b) ==> |c| <= |Picked(a, Pairs(a, b))|
  {
    PairsAreLongestMatching(a, b);
    PickedIsCommon(a, b, Pairs(a, b));
    forall c | IsCommonSubsequence(c, a, b)
      ensures |c| <= |Picked(a, Pairs(a, b))|
    {
      var ps := CommonIsMatched(a, b, c);
    }
  }

  function Reversed<T>(s: seq<T>): (r: seq<T>)
    ensures |r| == |s|
    ensures forall k :: 0 <= k < |s| ==> r[k] == s[|s| - 1 - k]
  {
    seq(|s|, k requires 0 <= k < |s| => s[|s| - 1 - k])
  }

  /** Row `i` of the table is filled. */
  ghost predicate RowDone<T>(dp: array2<nat>, a: seq<T>, b: seq<T>, i: nat)
    requires i <= |a| && dp.Length0 == |a| + 1 && dp.Length1 == |b| + 1
    reads dp
  {
    forall j :: 0 <= j <= |b| ==> dp[i, j] == Cell(a, b, i, j)
  }

  /** Fills row `i` of the table from row `i - 1`. Column 0 stays at the initial zero. */
  method FillRow<T(==)>(dp: array2<nat>, a: seq<T>, b: seq<T>, i: nat)
    requires dp.Length0 == |a| + 1 && dp.Length1 == |b| + 1
    requires 1 <= i <= |a|
    requires RowDone(dp, a, b, i - 1)
    requires dp[i, 0] == 0
    modifies dp
    ensures RowDone(dp, a, b, i)
    ensures forall x, y :: 0 <= x <= |a| && x != i && 0 <= y <= |b| ==> dp[x, y] == old(dp[x, y])
  {
    for j := 1 to |b| + 1
      invariant forall y :: 0 <= y < j ==> dp[i, y] == Cell(a, b, i, y)
      invariant forall x, y :: 0 <= x <= |a| && x != i && 0 <= y <= |b| ==> dp[x, y] == old(dp[x, y])
    {
      if a[i - 1] == b[j - 1] {
        dp[i, j] := dp[i - 1, j - 1] + 1;
      } else {
        dp[i, j] := if dp[i - 1, j] >= dp[i, j - 1] then dp[i - 1, j] else dp[i, j - 1];
      }
    }
  }

  method FillTable<T(==)>(a: seq<T>, b: seq<T>) returns (dp: array2<nat>)
    ensures fresh(dp) && dp.Length0 == |a| + 1 && dp.Length1 == |b| + 1
    ensures forall i :: 0 <= i <= |a| ==> RowDone(dp, a, b, i)
  {
    dp := new nat[|a| + 1, |b| + 1]((_, _) => 0);
    for i := 1 to |a| + 1
      invariant forall x :: 0 <= x < i ==> RowDone(dp, a, b, x)
      invariant forall x :: i <= x <= |a| ==> dp[x, 0] == 0
    {
      assert RowDone(dp, a, b, i - 1);
      label before:
      FillRow(dp, a, b, i);
      forall x | 0 <= x < i
        ensures RowDone(dp, a, b, x)
      {
        assert old@before(RowDone(dp, a, b, x));
      }
    }
  }

  /** Table, backtrack with greedy matches, and the final reversal. */
  method ComputeLCS<T(==)>(a: seq<T>, b: seq<T>) returns (r: seq<Pair>)
    ensures r == Pairs(a, b)
    ensures IsMatching(a, b, r)
    ensures forall ps :: IsMatching(a, b, ps) ==> |ps| <= |r|
  {
    var dp := FillTable(a, b);
    var result: seq<Pair> := [];
    var i, j := |a|, |b|;
    while i > 0 && j > 0
      invariant 0 <= i <= |a| && 0 <= j <= |b|
      invariant Pairs(a, b) == Trace(a, b, i, j) + Reversed(result)
      decreases i + j
    {
      if a[i - 1] == b[j - 1] {
        assert Trace(a, b, i, j) + Reversed(result)
            == Trace(a, b, i - 1, j - 1) + Reversed(result + [(i - 1, j - 1)]);
        result := result + [(i - 1, j - 1)];
        i, j := i - 1, j - 1;
      } else if dp[i - 1, j] >= dp[i, j - 1] {
        assert RowDone(dp, a, b, i - 1) && RowDone(dp, a, b, i);
        i := i - 1;
      } else {
        assert RowDone(dp, a, b, i - 1) && RowDone(dp, a, b, i);
        j := j - 1;
      }
    }
    r := Reversed(result);
    PairsAreLongestMatching(a, b);
  }
}
