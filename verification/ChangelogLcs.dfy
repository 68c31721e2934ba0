/** Longest common subsequence of two entry lists, as the changelog merge computes it: a
    table filled from the ends, then one greedy walk over it. */
module ChangelogLcs {

  // One matched position: entry i of the first list, entry j of the second.
  datatype Pair = Pair(i: nat, j: nat)

  // What it means to be a common subsequence, independently of any table.
  ghost predicate Increasing(ps: seq<Pair>) {
    forall k, l :: 0 <= k < l < |ps| ==> ps[k].i < ps[l].i && ps[k].j < ps[l].j
  }

  ghost predicate CommonSubsequence(a: seq<string>, b: seq<string>, ps: seq<Pair>) {
    && Increasing(ps)
    && forall k :: 0 <= k < |ps| ==> ps[k].i < |a| && ps[k].j < |b| && a[ps[k].i] == b[ps[k].j]
  }

  // The value the table holds at row i, column j.
  ghost function Best(a: seq<string>, b: seq<string>, i: nat, j: nat): nat
    requires i <= |a| && j <= |b|
    decreases |a| - i + |b| - j
  {
    if i == |a| || j == |b| then 0
    else if a[i] == b[j] then Best(a, b, i + 1, j + 1) + 1
    else if Best(a, b, i + 1, j) >= Best(a, b, i, j + 1) then Best(a, b, i + 1, j)
    else Best(a, b, i, j + 1)
  }

  // The pairs the walk collects from row i, column j onwards.
  ghost function Walk(a: seq<string>, b: seq<string>, i: nat, j: nat): seq<Pair>
    requires i <= |a| && j <= |b|
    decreases |a| - i + |b| - j
  {
    if i == |a| || j == |b| then []
    else if a[i] == b[j] then [Pair(i, j)] + Walk(a, b, i + 1, j + 1)
    else if Best(a, b, i + 1, j) >= Best(a, b, i, j + 1) then Walk(a, b, i + 1, j)
    else Walk(a, b, i, j + 1)
  }

  ghost function Lcs(a: seq<string>, b: seq<string>): seq<Pair> {
    Walk(a, b, 0, 0)
  }

  method LcsPairs(a: seq<string>, b: seq<string>) returns (out: seq<Pair>)
    ensures out == Lcs(a, b)
  {
    var n, m := |a|, |b|;
    if n == 0 || m == 0 {
      return [];
    }
    var dp := FillTable(a, b);
    out := [];
    var i, j := 0, 0;
    while i < n && j < m
      invariant 0 <= i <= n && 0 <= j <= m
      invariant Lcs(a, b) == out + Walk(a, b, i, j)
      decreases n - i + m - j
    {
      if a[i] == b[j] {
        assert out + ([Pair(i, j)] + Walk(a, b, i + 1, j + 1)) == (out + [Pair(i, j)]) + Walk(a, b, i + 1, j + 1);
        out := out + [Pair(i, j)];
        i, j := i + 1, j + 1;
      } else if dp[i + 1, j] >= dp[i, j + 1] {
        i := i + 1;
      } else {
        j := j + 1;
      }
    }
  }

  method FillTable(a: seq<string>, b: seq<string>) returns (dp: array2<nat>)
    ensures fresh(dp) && dp.Length0 == |a| + 1 && dp.Length1 == |b| + 1
    ensures forall x, y :: 0 <= x <= |a| && 0 <= y <= |b| ==> dp[x, y] == Best(a, b, x, y)
  {
    var n, m := |a|, |b|;
    dp := new nat[n + 1, m + 1]((_, _) => 0);
    var i := n;
    while i > 0
      invariant 0 <= i <= n
      invariant forall x, y :: 0 <= x < i && 0 <= y <= m ==> dp[x, y] == 0
      invariant forall x, y :: i <= x <= n && 0 <= y <= m ==> dp[x, y] == Best(a, b, x, y)
    {
      i := i - 1;
      FillRow(a, b, dp, i);
    }
  }

  // The inner loop: row i from row i + 1, right to left.
  method FillRow(a: seq<string>, b: seq<string>, dp: array2<nat>, i: nat)
    requires i < |a| && dp.Length0 == |a| + 1 && dp.Length1 == |b| + 1
    requires dp[i, |b|] == 0
    requires forall x, y :: x == i + 1 && 0 <= y <= |b| ==> dp[x, y] == Best(a, b, x, y)
    modifies dp
    ensures forall y :: 0 <= y <= |b| ==> dp[i, y] == Best(a, b, i, y)
    ensures forall x, y :: 0 <= x <= |a| && 0 <= y <= |b| && x != i ==> dp[x, y] == old(dp[x, y])
  {
    var j := |b|;
    while j > 0
      invariant 0 <= j <= |b|
      invariant forall y :: j <= y <= |b| ==> dp[i, y] == Best(a, b, i, y)
      invariant forall x, y :: 0 <= x <= |a| && 0 <= y <= |b| && x != i ==> dp[x, y] == old(dp[x, y])
    {
      j := j - 1;
      if a[i] == b[j] {
        dp[i, j] := dp[i + 1, j + 1] + 1;
      } else if dp[i + 1, j] >= dp[i, j + 1] {
        dp[i, j] := dp[i + 1, j];
      } else {
        dp[i, j] := dp[i, j + 1];
      }
    }
  }

  // All of ps from row i, column j onwards.
  ghost predicate From(ps: seq<Pair>, i: nat, j: nat) {
    forall k :: 0 <= k < |ps| ==> ps[k].i >= i && ps[k].j >= j
  }

  lemma {:induction false} PrependMatch(a: seq<string>, b: seq<string>, i: nat, j: nat, rest: seq<Pair>)
    requires i < |a| && j < |b| && a[i] == b[j]
    requires CommonSubsequence(a, b, rest) && From(rest, i + 1, j + 1)
    ensures CommonSubsequence(a, b, [Pair(i, j)] + rest) && From([Pair(i, j)] + rest, i, j)
  {
    var ps := [Pair(i, j)] + rest;
    assert forall k :: 0 < k < |ps| ==> ps[k] == rest[k - 1];
  }

  lemma {:induction false} WalkSound(a: seq<string>, b: seq<string>, i: nat, j: nat)
    requires i <= |a| && j <= |b|
    ensures CommonSubsequence(a, b, Walk(a, b, i, j)) && From(Walk(a, b, i, j), i, j)
    ensures |Walk(a, b, i, j)| == Best(a, b, i, j)
    decreases |a| - i + |b| - j
  {
    if i == |a| || j == |b| {
    } else if a[i] == b[j] {
      WalkSound(a, b, i + 1, j + 1);
      PrependMatch(a, b, i, j, Walk(a, b, i + 1, j + 1));
    } else if Best(a, b, i + 1, j) >= Best(a, b, i, j + 1) {
      WalkSound(a, b, i + 1, j);
    } else {
      WalkSound(a, b, i, j + 1);
    }
  }

  lemma {:induction false} NoLongerFrom(a: seq<string>, b: seq<string>, i: nat, j: nat, ps: seq<Pair>)
    requires i <= |a| && j <= |b|
    requires CommonSubsequence(a, b, ps)
    requires From(ps, i, j)
    ensures |ps| <= Best(a, b, i, j)
    decreases |a| - i + |b| - j
  {
    if ps == [] {
      return;
    }
    assert ps[0].i < |a| && ps[0].j < |b|;
    if a[i] == b[j] {
      NoLongerFrom(a, b, i + 1, j + 1, ps[1..]);
    } else if ps[0].i > i {
      NoLongerFrom(a, b, i + 1, j, ps);
    } else {
      NoLongerFrom(a, b, i, j + 1, ps);
    }
  }

  /** The walk returns a common subsequence, and no common subsequence is longer. */
  lemma {:induction false} LcsIsLongest(a: seq<string>, b: seq<string>)
    ensures CommonSubsequence(a, b, Lcs(a, b))
    ensures forall ps :: CommonSubsequence(a, b, ps) ==> |ps| <= |Lcs(a, b)|
  {
    WalkSound(a, b, 0, 0);
    forall ps | CommonSubsequence(a, b, ps)
      ensures |ps| <= |Lcs(a, b)|
    {
      NoLongerFrom(a, b, 0, 0, ps);
    }
  }

  // p lies in one gap of ps: strictly on the same side of every matched pair in both lists.
  ghost predicate InOneGap(ps: seq<Pair>, p: Pair) {
    forall k :: 0 <= k < |ps| ==>
      && ps[k].i != p.i
      && ps[k].j != p.j
      && (ps[k].i < p.i <==> ps[k].j < p.j)
  }

  // How many leading pairs lie before p.
  ghost function Before(ps: seq<Pair>, p: Pair): (n: nat)
    ensures n <= |ps|
    ensures forall k :: 0 <= k < n ==> ps[k].i < p.i
    ensures n < |ps| ==> ps[n].i >= p.i
  {
    if ps == [] || ps[0].i >= p.i then 0 else Before(ps[1..], p) + 1
  }

  // Every pair after the insertion point lies after p in both lists.
  lemma {:induction false} AfterInsertion(ps: seq<Pair>, p: Pair, k: nat)
    requires Increasing(ps) && InOneGap(ps, p)
    requires Before(ps, p) <= k < |ps|
    ensures p.i < ps[k].i && p.j < ps[k].j
  {
    var n := Before(ps, p);
    assert ps[n].i > p.i;
    assert n < k ==> ps[n].i < ps[k].i;
  }

  lemma {:induction false} BeforeInsertion(ps: seq<Pair>, p: Pair, k: nat)
    requires Increasing(ps) && InOneGap(ps, p)
    requires k < Before(ps, p)
    ensures ps[k].i < p.i && ps[k].j < p.j
  {
  }

  lemma {:induction false} InsertionIncreases(ps: seq<Pair>, p: Pair)
    requires Increasing(ps) && InOneGap(ps, p)
    ensures var n := Before(ps, p); Increasing(ps[..n] + [p] + ps[n..])
  {
    hide InOneGap, Before;
    var n := Before(ps, p);
    var longer := ps[..n] + [p] + ps[n..];
    forall k, l | 0 <= k < l < |longer|
      ensures longer[k].i < longer[l].i && longer[k].j < longer[l].j
    {
      assert longer[k] == if k < n then ps[k] else if k == n then p else ps[k - 1];
      assert longer[l] == if l < n then ps[l] else if l == n then p else ps[l - 1];
      if l > n {
        AfterInsertion(ps, p, l - 1);
      }
      if k < n {
        BeforeInsertion(ps, p, k);
      }
    }
  }

  lemma {:induction false} EqualPairExtends(a: seq<string>, b: seq<string>, ps: seq<Pair>, p: Pair)
    requires CommonSubsequence(a, b, ps)
    requires p.i < |a| && p.j < |b| && a[p.i] == b[p.j]
    requires InOneGap(ps, p)
    ensures exists longer :: CommonSubsequence(a, b, longer) && |longer| > |ps|
  {
    var n := Before(ps, p);
    InsertionIncreases(ps, p);
    var longer := ps[..n] + [p] + ps[n..];
    assert forall k :: 0 <= k < |longer| ==> longer[k] == p || longer[k] in ps;
    assert CommonSubsequence(a, b, longer);
  }

  /** Two positions inside one gap of the walk never hold equal entries: the pair could be
      inserted and the subsequence would not have been a longest one. */
  lemma {:induction false} GapsHoldNoEqualPair(a: seq<string>, b: seq<string>, p: Pair)
    requires p.i < |a| && p.j < |b|
    requires InOneGap(Lcs(a, b), p)
    ensures a[p.i] != b[p.j]
  {
    LcsIsLongest(a, b);
    if a[p.i] == b[p.j] {
      EqualPairExtends(a, b, Lcs(a, b), p);
    }
  }

  // The pairs (i, i), (i + 1, i + 1), ..., (n - 1, n - 1).
  function Diagonal(i: nat, n: nat): (ps: seq<Pair>)
    requires i <= n
    ensures |ps| == n - i
    ensures forall k :: 0 <= k < |ps| ==> ps[k] == Pair(i + k, i + k)
    decreases n - i
  {
    if i == n then [] else [Pair(i, i)] + Diagonal(i + 1, n)
  }

  /** A list compared with itself matches every entry with itself. */
  lemma {:induction false} WalkSelf(a: seq<string>, i: nat)
    requires i <= |a|
    ensures Walk(a, a, i, i) == Diagonal(i, |a|)
    decreases |a| - i
  {
    if i < |a| {
      WalkSelf(a, i + 1);
    }
  }

  lemma {:induction false} LcsOfSame(a: seq<string>)
    ensures Lcs(a, a) == Diagonal(0, |a|)
  {
    WalkSelf(a, 0);
  }
}
