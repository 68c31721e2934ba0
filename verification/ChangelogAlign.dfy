/** Aligning one side's entries with the base entries: the pairs of a longest common
    subsequence are the unchanged entries, and inside each gap between them a rewritten entry
    is paired with its replacement. */
module ChangelogAlign {
  import opened ChangelogLcs

  // How alike two entry texts are. Every result below holds for any measure that is positive
  // only on non-empty texts; the source's own measure, Jaccard below, is one.
  type Measure = (string, string) -> real

  const SIMILAR_THRESHOLD := 0.5

  ghost predicate PositiveOnText(sim: Measure) {
    forall a, b :: sim(a, b) > 0.0 ==> a != "" && b != ""
  }

  // The words of an entry, for any way to split a text into words.
  type Tokenizer = string -> set<string>

  // The Jaccard index of the words of two entries; 0 when they share no word.
  function Jaccard(words: Tokenizer): Measure {
    (a, b) =>
      var shared := |words(a) * words(b)|;
      if shared == 0 then 0.0
      else
        UnionPositive(words(a), words(b));
        shared as real / (|words(a)| + |words(b)| - shared) as real
  }

  lemma UnionPositive(a: set<string>, b: set<string>)
    requires |a * b| > 0
    ensures |a| + |b| - |a * b| >= |a * b|
  {
    assert a == (a - b) + (a * b);
    assert b == (b - a) + (a * b);
  }

  // The sizes behind the measure: shared words, and all words of both texts.
  lemma {:induction false} SetSizes(x: set<string>, y: set<string>)
    ensures x * y == y * x
    ensures |x * y| <= |x| + |y| - |x * y|
    ensures |x * y| == |x| + |y| - |x * y| <==> x == y
  {
    assert x * y == y * x;
    assert x == (x - y) + (x * y) && y == (y - x) + (x * y);
    if |x - y| == 0 && |y - x| == 0 {
      assert x - y == {} && y - x == {};
    }
  }

  /** The measure lies between 0 and 1, is positive exactly on texts that share a word, is 1
      exactly when both have the same words, and is symmetric. A tokenizer that finds no word
      in the empty text therefore makes it positive on non-empty texts only. */
  lemma {:induction false} JaccardMeasures(words: Tokenizer, a: string, b: string)
    ensures 0.0 <= Jaccard(words)(a, b) <= 1.0
    ensures Jaccard(words)(a, b) > 0.0 <==> words(a) * words(b) != {}
    ensures Jaccard(words)(a, b) == 1.0 <==> words(a) == words(b) != {}
    ensures Jaccard(words)(a, b) == Jaccard(words)(b, a)
  {
    var x, y := words(a), words(b);
    SetSizes(x, y);
    if |x * y| > 0 {
      RatioBounds(|x * y|, |x| + |y| - |x * y|);
    }
  }

  lemma UnionSize(x: set<string>, y: set<string>)
    ensures |x + y| == |x| + |y| - |x * y|
  {
    assert x + y == x + (y - x) && y == (y - x) + (x * y);
  }

  /** It is the share of the words of both texts that they have in common. */
  lemma JaccardIsTheShare(words: Tokenizer, a: string, b: string)
    ensures var x, y := words(a), words(b);
      Jaccard(words)(a, b) * |x + y| as real == |x * y| as real
  {
    UnionSize(words(a), words(b));
  }

  lemma RatioBounds(s: nat, u: nat)
    requires 0 < s <= u
    ensures 0.0 < s as real / u as real <= 1.0
    ensures s as real / u as real == 1.0 <==> s == u
  {
  }

  lemma {:induction false} JaccardIsPositiveOnText(words: Tokenizer)
    requires words("") == {}
    ensures PositiveOnText(Jaccard(words))
  {
    forall a, b | Jaccard(words)(a, b) > 0.0
      ensures a != "" && b != ""
    {
      JaccardMeasures(words, a, b);
    }
  }

  datatype Cand = Cand(i: nat, j: nat, sim: real)

  // The candidate pairs of base entry i with the side entries sLo..sHi, then of every base
  // entry bLo..bHi, in scan order. A gap is always a range of entries between two anchors.
  ghost function CandsOf(sim: Measure, base: seq<string>, side: seq<string>, i: nat, sLo: nat, sHi: nat): seq<Cand>
    requires i < |base| && sLo <= sHi <= |side|
  {
    if sLo == sHi then []
    else
      var prev := CandsOf(sim, base, side, i, sLo, sHi - 1);
      var s := sim(base[i], side[sHi - 1]);
      if s >= SIMILAR_THRESHOLD then prev + [Cand(i, sHi - 1, s)] else prev
  }

  ghost function Cands(sim: Measure, base: seq<string>, side: seq<string>, bLo: nat, bHi: nat, sLo: nat,
                       sHi: nat): seq<Cand>
    requires bLo <= bHi <= |base| && sLo <= sHi <= |side|
    decreases bHi
  {
    if bLo == bHi then []
    else Cands(sim, base, side, bLo, bHi - 1, sLo, sHi) + CandsOf(sim, base, side, bHi - 1, sLo, sHi)
  }

  // Stable sort by falling similarity, the library call the source makes.
  function InsertDesc(c: Cand, cs: seq<Cand>): seq<Cand> {
    if cs == [] || c.sim >= cs[0].sim then [c] + cs else [cs[0]] + InsertDesc(c, cs[1..])
  }

  function SortDesc(cs: seq<Cand>): seq<Cand> {
    if cs == [] then [] else InsertDesc(cs[0], SortDesc(cs[1..]))
  }

  ghost predicate Descending(cs: seq<Cand>) {
    forall k, l :: 0 <= k < l < |cs| ==> cs[k].sim >= cs[l].sim
  }

  lemma {:induction false} InsertDescKeeps(c: Cand, cs: seq<Cand>)
    ensures multiset(InsertDesc(c, cs)) == multiset{c} + multiset(cs)
  {
    if cs == [] || c.sim >= cs[0].sim {
    } else {
      InsertDescKeeps(c, cs[1..]);
      assert cs == [cs[0]] + cs[1..];
    }
  }

  lemma {:induction false} InsertDescSorts(c: Cand, cs: seq<Cand>)
    requires Descending(cs)
    ensures Descending(InsertDesc(c, cs))
  {
    if cs != [] && c.sim < cs[0].sim {
      InsertDescSorts(c, cs[1..]);
      var rest := InsertDesc(c, cs[1..]);
      forall k | 0 <= k < |rest|
        ensures cs[0].sim >= rest[k].sim
      {
        InsertDescMember(c, cs[1..], rest[k]);
      }
    }
  }

  lemma {:induction false} InsertDescMember(c: Cand, cs: seq<Cand>, x: Cand)
    requires x in InsertDesc(c, cs)
    ensures x == c || x in cs
  {
    if cs != [] && c.sim < cs[0].sim && x != cs[0] {
      InsertDescMember(c, cs[1..], x);
    }
  }

  /** The sort keeps exactly the candidates and orders them by falling similarity. */
  lemma {:induction false} SortDescSorts(cs: seq<Cand>)
    ensures Descending(SortDesc(cs))
    ensures multiset(SortDesc(cs)) == multiset(cs)
  {
    if cs != [] {
      SortDescSorts(cs[1..]);
      InsertDescSorts(cs[0], SortDesc(cs[1..]));
      InsertDescKeeps(cs[0], SortDesc(cs[1..]));
      assert cs == [cs[0]] + cs[1..];
    }
  }

  // Candidates of equal similarity, in order.
  ghost function OfSim(cs: seq<Cand>, sim: real): seq<Cand> {
    if cs == [] then [] else (if cs[0].sim == sim then [cs[0]] else []) + OfSim(cs[1..], sim)
  }

  lemma {:induction false} InsertDescStable(c: Cand, cs: seq<Cand>, sim: real)
    ensures OfSim(InsertDesc(c, cs), sim) == (if c.sim == sim then [c] else []) + OfSim(cs, sim)
  {
    if cs != [] && c.sim < cs[0].sim {
      InsertDescStable(c, cs[1..], sim);
    }
  }

  /** The sort is stable: candidates of equal similarity keep their scan order. */
  lemma {:induction false} SortDescStable(cs: seq<Cand>, sim: real)
    ensures OfSim(SortDesc(cs), sim) == OfSim(cs, sim)
  {
    if cs != [] {
      SortDescStable(cs[1..], sim);
      InsertDescStable(cs[0], SortDesc(cs[1..]), sim);
    }
  }

  ghost function Lefts(ps: seq<Pair>): set<nat> { set p | p in ps :: p.i }
  ghost function Rights(ps: seq<Pair>): set<nat> { set p | p in ps :: p.j }

  // The greedy choice: scan the first n candidates, skip any with a used end.
  ghost function Greedy(cs: seq<Cand>, n: nat): seq<Pair>
    requires n <= |cs|
  {
    if n == 0 then []
    else
      var prev := Greedy(cs, n - 1);
      var c := cs[n - 1];
      if c.i in Lefts(prev) || c.j in Rights(prev) then prev else prev + [Pair(c.i, c.j)]
  }

  // The numbers lo..hi outside used, in order.
  ghost function Unused(lo: nat, hi: nat, used: set<nat>): (xs: seq<nat>)
    requires lo <= hi
    ensures forall x :: x in xs <==> lo <= x < hi && x !in used
    ensures forall k :: 0 <= k < |xs| ==> lo <= xs[k] < hi && xs[k] !in used
  {
    if lo == hi then []
    else Unused(lo, hi - 1, used) + (if hi - 1 in used then [] else [hi - 1])
  }

  // The pairs one gap contributes, in the order they are recorded.
  ghost function GapPicks(sim: Measure, base: seq<string>, side: seq<string>, bLo: nat, bHi: nat, sLo: nat,
                          sHi: nat): seq<Pair>
    requires bLo <= bHi <= |base| && sLo <= sHi <= |side|
  {
    var cs := SortDesc(Cands(sim, base, side, bLo, bHi, sLo, sHi));
    var picks := Greedy(cs, |cs|);
    var restB, restS := Unused(bLo, bHi, Lefts(picks)), Unused(sLo, sHi, Rights(picks));
    if |restB| == 1 && |restS| == 1 && sim(base[restB[0]], side[restS[0]]) > 0.0
    then picks + [Pair(restB[0], restS[0])]
    else picks
  }

  method PairGap(sim: Measure, base: seq<string>, side: seq<string>, bLo: nat, bHi: nat, sLo: nat, sHi: nat)
    returns (picks: seq<Pair>)
    requires bLo <= bHi <= |base| && sLo <= sHi <= |side|
    ensures picks == GapPicks(sim, base, side, bLo, bHi, sLo, sHi)
  {
    if bLo == bHi || sLo == sHi {
      NoCands(sim, base, side, bLo, bHi, sLo, sHi);
      return [];
    }
    var cands := CollectCands(sim, base, side, bLo, bHi, sLo, sHi);
    cands := SortDesc(cands);
    var usedB: set<nat>, usedS: set<nat> := {}, {};
    picks := [];
    for k := 0 to |cands|
      invariant picks == Greedy(cands, k)
      invariant usedB == Lefts(picks) && usedS == Rights(picks)
    {
      var c := cands[k];
      if c.i in usedB || c.j in usedS {
        continue;
      }
      usedB, usedS := usedB + {c.i}, usedS + {c.j};
      LeftsRightsSnoc(picks, Pair(c.i, c.j));
      picks := picks + [Pair(c.i, c.j)];
    }
    var restB := Remaining(bLo, bHi, usedB);
    var restS := Remaining(sLo, sHi, usedS);
    if |restB| == 1 && |restS| == 1 && sim(base[restB[0]], side[restS[0]]) > 0.0 {
      picks := picks + [Pair(restB[0], restS[0])];
    }
  }

  method CollectCands(sim: Measure, base: seq<string>, side: seq<string>, bLo: nat, bHi: nat, sLo: nat, sHi: nat)
    returns (cands: seq<Cand>)
    requires bLo <= bHi <= |base| && sLo <= sHi <= |side|
    ensures cands == Cands(sim, base, side, bLo, bHi, sLo, sHi)
  {
    cands := [];
    for i := bLo to bHi
      invariant cands == Cands(sim, base, side, bLo, i, sLo, sHi)
    {
      ghost var before := cands;
      for j := sLo to sHi
        invariant cands == before + CandsOf(sim, base, side, i, sLo, j)
      {
        var s := sim(base[i], side[j]);
        if s >= SIMILAR_THRESHOLD {
          cands := cands + [Cand(i, j, s)];
        }
      }
    }
  }

  method Remaining(lo: nat, hi: nat, used: set<nat>) returns (rest: seq<nat>)
    requires lo <= hi
    ensures rest == Unused(lo, hi, used)
  {
    rest := [];
    for x := lo to hi
      invariant rest == Unused(lo, x, used)
    {
      if x !in used {
        rest := rest + [x];
      }
    }
  }

  lemma LeftsRightsSnoc(ps: seq<Pair>, p: Pair)
    ensures Lefts(ps + [p]) == Lefts(ps) + {p.i}
    ensures Rights(ps + [p]) == Rights(ps) + {p.j}
  {
    assert forall q :: q in ps + [p] <==> q in ps || q == p;
    assert p in ps + [p];
  }

  lemma {:induction false} NoCands(sim: Measure, base: seq<string>, side: seq<string>, bLo: nat, bHi: nat, sLo: nat,
                                   sHi: nat)
    requires bLo <= bHi <= |base| && sLo <= sHi <= |side|
    requires bLo == bHi || sLo == sHi
    ensures Cands(sim, base, side, bLo, bHi, sLo, sHi) == []
    ensures GapPicks(sim, base, side, bLo, bHi, sLo, sHi) == []
    decreases bHi
  {
    if bLo < bHi {
      NoCands(sim, base, side, bLo, bHi - 1, sLo, sHi);
    }
  }

  // No two pairs share an entry on either side.
  ghost predicate Distinct(ps: seq<Pair>) {
    forall k, l :: 0 <= k < l < |ps| ==> ps[k].i != ps[l].i && ps[k].j != ps[l].j
  }

  // c is a candidate of the gap: close enough, with its own similarity recorded.
  ghost predicate IsCand(sim: Measure, base: seq<string>, side: seq<string>, c: Cand, bLo: int, bHi: int, sLo: int,
                         sHi: int)
    requires 0 <= bLo <= bHi <= |base| && 0 <= sLo <= sHi <= |side|
  {
    && bLo <= c.i < bHi && sLo <= c.j < sHi
    && c.sim == sim(base[c.i], side[c.j]) >= SIMILAR_THRESHOLD
  }

  lemma {:induction false} CandsOfExact(sim: Measure, base: seq<string>, side: seq<string>, i: nat, sLo: nat, sHi: nat,
                                        c: Cand)
    requires i < |base| && sLo <= sHi <= |side|
    ensures c in CandsOf(sim, base, side, i, sLo, sHi) <==> c.i == i && IsCand(sim, base, side, c, i, i + 1, sLo, sHi)
  {
    if sLo < sHi {
      CandsOfExact(sim, base, side, i, sLo, sHi - 1, c);
    }
  }

  lemma {:induction false} CandsExact(sim: Measure, base: seq<string>, side: seq<string>, bLo: nat, bHi: nat, sLo: nat,
                                      sHi: nat, c: Cand)
    requires bLo <= bHi <= |base| && sLo <= sHi <= |side|
    ensures c in Cands(sim, base, side, bLo, bHi, sLo, sHi) <==> IsCand(sim, base, side, c, bLo, bHi, sLo, sHi)
    decreases bHi
  {
    if bLo < bHi {
      var prev := Cands(sim, base, side, bLo, bHi - 1, sLo, sHi);
      var last := CandsOf(sim, base, side, bHi - 1, sLo, sHi);
      assert c in prev + last <==> c in prev || c in last;
      assert Cands(sim, base, side, bLo, bHi, sLo, sHi) == prev + last;
      CandsExact(sim, base, side, bLo, bHi - 1, sLo, sHi, c);
      CandsOfExact(sim, base, side, bHi - 1, sLo, sHi, c);
    }
  }

  lemma {:induction false} SortedExact(sim: Measure, base: seq<string>, side: seq<string>, bLo: nat, bHi: nat,
                                       sLo: nat, sHi: nat, c: Cand)
    requires bLo <= bHi <= |base| && sLo <= sHi <= |side|
    ensures c in SortDesc(Cands(sim, base, side, bLo, bHi, sLo, sHi)) <==>
      IsCand(sim, base, side, c, bLo, bHi, sLo, sHi)
  {
    var cs := Cands(sim, base, side, bLo, bHi, sLo, sHi);
    SortDescSorts(cs);
    CandsExact(sim, base, side, bLo, bHi, sLo, sHi, c);
    assert c in SortDesc(cs) <==> c in multiset(SortDesc(cs));
    assert c in cs <==> c in multiset(cs);
  }

  lemma {:induction false} DistinctSnoc(ps: seq<Pair>, p: Pair)
    requires Distinct(ps) && p.i !in Lefts(ps) && p.j !in Rights(ps)
    ensures Distinct(ps + [p])
  {
    forall k | 0 <= k < |ps|
      ensures ps[k].i != p.i && ps[k].j != p.j
    {
      assert ps[k] in ps;
    }
  }

  lemma {:induction false} GreedyDistinct(cs: seq<Cand>, n: nat)
    requires n <= |cs|
    ensures Distinct(Greedy(cs, n))
  {
    if n > 0 {
      GreedyDistinct(cs, n - 1);
      var c := cs[n - 1];
      var prev := Greedy(cs, n - 1);
      if c.i !in Lefts(prev) && c.j !in Rights(prev) {
        DistinctSnoc(prev, Pair(c.i, c.j));
      }
    }
  }

  lemma {:induction false} GreedyFrom(cs: seq<Cand>, n: nat, p: Pair) returns (k: nat)
    requires n <= |cs| && p in Greedy(cs, n)
    ensures k < n && cs[k].i == p.i && cs[k].j == p.j
  {
    var prev := Greedy(cs, n - 1);
    if p in prev {
      k := GreedyFrom(cs, n - 1, p);
    } else {
      k := n - 1;
    }
  }

  // Every scanned candidate shares an end with a pick scanned no later.
  lemma {:induction false} GreedyCovers(cs: seq<Cand>, n: nat, k: nat) returns (p: Pair, l: nat)
    requires k < n <= |cs|
    ensures p in Greedy(cs, n) && (p.i == cs[k].i || p.j == cs[k].j)
    ensures l <= k && cs[l].i == p.i && cs[l].j == p.j
  {
    var prev := Greedy(cs, n - 1);
    if k < n - 1 {
      p, l := GreedyCovers(cs, n - 1, k);
    } else if cs[k].i in Lefts(prev) || cs[k].j in Rights(prev) {
      p :| p in prev && (p.i == cs[k].i || p.j == cs[k].j);
      l := GreedyFrom(cs, k, p);
    } else {
      p, l := Pair(cs[k].i, cs[k].j), k;
    }
  }

  // p pairs a base entry of the gap with a side entry of it that it resembles.
  ghost predicate SoundPick(sim: Measure, base: seq<string>, side: seq<string>, p: Pair, bLo: int, bHi: int, sLo: int,
                            sHi: int)
    requires 0 <= bLo <= bHi <= |base| && 0 <= sLo <= sHi <= |side|
  {
    bLo <= p.i < bHi && sLo <= p.j < sHi && sim(base[p.i], side[p.j]) > 0.0
  }

  /** What one gap contributes: pairs inside the gap, no entry used twice, and every pair
      has a positive likeness. */
  lemma {:induction false} GapPicksSound(sim: Measure, base: seq<string>, side: seq<string>, bLo: nat, bHi: nat,
                                         sLo: nat, sHi: nat)
    requires bLo <= bHi <= |base| && sLo <= sHi <= |side|
    ensures Distinct(GapPicks(sim, base, side, bLo, bHi, sLo, sHi))
    ensures forall p :: p in GapPicks(sim, base, side, bLo, bHi, sLo, sHi) ==>
      SoundPick(sim, base, side, p, bLo, bHi, sLo, sHi)
  {
    var cs := SortDesc(Cands(sim, base, side, bLo, bHi, sLo, sHi));
    GreedyDistinct(cs, |cs|);
    var picks := Greedy(cs, |cs|);
    forall p | p in picks
      ensures SoundPick(sim, base, side, p, bLo, bHi, sLo, sHi)
    {
      var k := GreedyFrom(cs, |cs|, p);
      SortedExact(sim, base, side, bLo, bHi, sLo, sHi, cs[k]);
    }
    var restB, restS := Unused(bLo, bHi, Lefts(picks)), Unused(sLo, sHi, Rights(picks));
    if |restB| == 1 && |restS| == 1 {
      DistinctSnoc(picks, Pair(restB[0], restS[0]));
    }
  }

  /** The greedy pairing leaves no blocking pair: two entries alike enough to be one rewritten
      entry are paired, or one of them is paired with a text at least as alike. */
  lemma {:induction false} NoBlockingPair(sim: Measure, base: seq<string>, side: seq<string>, bLo: nat, bHi: nat,
                                          sLo: nat, sHi: nat, i: nat, j: nat)
    requires bLo <= i < bHi <= |base| && sLo <= j < sHi <= |side|
    requires sim(base[i], side[j]) >= SIMILAR_THRESHOLD
    ensures exists p ::
      && p in GapPicks(sim, base, side, bLo, bHi, sLo, sHi)
      && (p.i == i || p.j == j)
      && p.i < |base| && p.j < |side|
      && sim(base[p.i], side[p.j]) >= sim(base[i], side[j])
  {
    var cs := SortDesc(Cands(sim, base, side, bLo, bHi, sLo, sHi));
    var c := Cand(i, j, sim(base[i], side[j]));
    SortedExact(sim, base, side, bLo, bHi, sLo, sHi, c);
    SortDescSorts(Cands(sim, base, side, bLo, bHi, sLo, sHi));
    var k :| 0 <= k < |cs| && cs[k] == c;
    var p, l := GreedyCovers(cs, |cs|, k);
    SortedExact(sim, base, side, bLo, bHi, sLo, sHi, cs[l]);
    assert cs[l].sim >= cs[k].sim;
    assert p in GapPicks(sim, base, side, bLo, bHi, sLo, sHi);
  }

  // The entries of the gap that no pair of these holds.
  ghost predicate OpenBase(ps: seq<Pair>, i: int, bLo: int, bHi: int) {
    bLo <= i < bHi && forall p :: p in ps ==> p.i != i
  }

  ghost predicate OpenSide(ps: seq<Pair>, j: int, sLo: int, sHi: int) {
    sLo <= j < sHi && forall p :: p in ps ==> p.j != j
  }

  // i and j are the only entries of the gap left over.
  ghost predicate OnlyOpen(ps: seq<Pair>, i: int, j: int, bLo: int, bHi: int, sLo: int, sHi: int) {
    BaseAlone(ps, i, bLo, bHi) && SideAlone(ps, j, sLo, sHi)
  }

  ghost predicate BaseAlone(ps: seq<Pair>, i: int, bLo: int, bHi: int) {
    forall x :: OpenBase(ps, x, bLo, bHi) <==> x == i
  }

  ghost predicate SideAlone(ps: seq<Pair>, j: int, sLo: int, sHi: int) {
    forall y :: OpenSide(ps, y, sLo, sHi) <==> y == j
  }

  // The pairs alike enough to be rewrites by themselves.
  ghost function Similar(sim: Measure, base: seq<string>, side: seq<string>, ps: seq<Pair>): seq<Pair> {
    if ps == [] then []
    else
      var p := ps[|ps| - 1];
      Similar(sim, base, side, ps[..|ps| - 1]) +
      if p.i < |base| && p.j < |side| && sim(base[p.i], side[p.j]) >= SIMILAR_THRESHOLD then [p] else []
  }

  lemma {:induction false} AllSimilar(sim: Measure, base: seq<string>, side: seq<string>, ps: seq<Pair>)
    requires forall p :: p in ps ==>
      p.i < |base| && p.j < |side| && sim(base[p.i], side[p.j]) >= SIMILAR_THRESHOLD
    ensures Similar(sim, base, side, ps) == ps
  {
    if ps != [] {
      assert forall p :: p in ps[..|ps| - 1] ==> p in ps;
      assert ps == ps[..|ps| - 1] + [ps[|ps| - 1]];
      AllSimilar(sim, base, side, ps[..|ps| - 1]);
    }
  }

  ghost predicate Rises(xs: seq<nat>) { forall k, l :: 0 <= k < l < |xs| ==> xs[k] < xs[l] }

  lemma RisesSnoc(xs: seq<nat>, x: nat)
    requires Rises(xs) && forall k :: 0 <= k < |xs| ==> xs[k] < x
    ensures Rises(xs + [x])
  {
  }

  lemma {:induction false} UnusedRises(lo: nat, hi: nat, used: set<nat>)
    requires lo <= hi
    ensures Rises(Unused(lo, hi, used))
  {
    hide Unused, Rises;
    UnusedStep(lo, hi, used);
    if lo < hi {
      UnusedRises(lo, hi - 1, used);
      RisesSnoc(Unused(lo, hi - 1, used), hi - 1);
    } else {
      NothingRises();
    }
  }

  lemma UnusedStep(lo: nat, hi: nat, used: set<nat>)
    requires lo <= hi
    ensures lo == hi ==> Unused(lo, hi, used) == []
    ensures lo < hi ==>
      var front := Unused(lo, hi - 1, used);
      Unused(lo, hi, used) == (if hi - 1 in used then front else front + [hi - 1]) &&
        forall k :: 0 <= k < |front| ==> front[k] < hi - 1
  {
  }

  lemma NothingRises()
    ensures Rises([])
  {
  }

  ghost predicate OnlyMember(xs: seq<nat>, x: nat) { forall y :: y in xs <==> y == x }

  // One number outside is the only one outside.
  lemma UnusedAlone(lo: nat, hi: nat, used: set<nat>, x: nat)
    requires lo <= hi
    ensures Unused(lo, hi, used) == [x] <==> OnlyMember(Unused(lo, hi, used), x)
  {
    UnusedRises(lo, hi, used);
    hide Unused;
    var xs := Unused(lo, hi, used);
    assert |xs| > 1 ==> xs[0] < xs[1];
    if OnlyMember(xs, x) {
      assert x in xs;
      assert forall k :: 0 <= k < |xs| ==> xs[k] in xs && xs[k] == x;
    }
  }

  lemma GreedyIsSimilar(sim: Measure, base: seq<string>, side: seq<string>, bLo: nat, bHi: nat, sLo: nat, sHi: nat)
    requires bLo <= bHi <= |base| && sLo <= sHi <= |side|
    ensures var cs := SortDesc(Cands(sim, base, side, bLo, bHi, sLo, sHi));
      var first := Greedy(cs, |cs|);
      && Similar(sim, base, side, first) == first
      && forall p :: p in first ==> p.i < |base| && p.j < |side| && sim(base[p.i], side[p.j]) >= SIMILAR_THRESHOLD
  {
    hide Cands, SortDesc, Greedy, Similar;
    var cs := SortDesc(Cands(sim, base, side, bLo, bHi, sLo, sHi));
    var first := Greedy(cs, |cs|);
    forall p | p in first
      ensures p.i < |base| && p.j < |side| && sim(base[p.i], side[p.j]) >= SIMILAR_THRESHOLD
    {
      var k := GreedyFrom(cs, |cs|, p);
      SortedExact(sim, base, side, bLo, bHi, sLo, sHi, cs[k]);
    }
    AllSimilar(sim, base, side, first);
  }

  lemma SimilarSnoc(sim: Measure, base: seq<string>, side: seq<string>, ps: seq<Pair>, p: Pair)
    requires p.i < |base| && p.j < |side| && sim(base[p.i], side[p.j]) < SIMILAR_THRESHOLD
    ensures Similar(sim, base, side, ps + [p]) == Similar(sim, base, side, ps)
  {
    assert (ps + [p])[..|ps|] == ps;
  }

  // The greedy choice, and the leftover pair if there is one: then the only two entries open.
  ghost predicate IsSplit(sim: Measure, base: seq<string>, side: seq<string>, bLo: nat, bHi: nat, sLo: nat, sHi: nat,
                          first: seq<Pair>, rest: seq<Pair>)
    requires bLo <= bHi <= |base| && sLo <= sHi <= |side|
  {
    && (forall p :: p in first ==> p.i < |base| && p.j < |side| && sim(base[p.i], side[p.j]) >= SIMILAR_THRESHOLD)
    && (forall i, j :: bLo <= i < bHi && sLo <= j < sHi ==>
         (rest == [Pair(i, j)] <==> OnlyOpen(first, i, j, bLo, bHi, sLo, sHi) && sim(base[i], side[j]) > 0.0))
    && (rest == [] ||
         exists i, j ::
           bLo <= i < bHi && sLo <= j < sHi && rest == [Pair(i, j)] && sim(base[i], side[j]) < SIMILAR_THRESHOLD)
  }

  lemma GreedyThenLeftover(sim: Measure, base: seq<string>, side: seq<string>, bLo: nat, bHi: nat, sLo: nat, sHi: nat)
    returns (first: seq<Pair>, rest: seq<Pair>)
    requires bLo <= bHi <= |base| && sLo <= sHi <= |side|
    ensures GapPicks(sim, base, side, bLo, bHi, sLo, sHi) == first + rest
    ensures Similar(sim, base, side, first + rest) == first
    ensures IsSplit(sim, base, side, bLo, bHi, sLo, sHi, first, rest)
  {
    hide Cands, SortDesc, Greedy, Similar, OnlyOpen, Lefts, Rights, Unused;
    var cs := SortDesc(Cands(sim, base, side, bLo, bHi, sLo, sHi));
    first := Greedy(cs, |cs|);
    GreedyIsSimilar(sim, base, side, bLo, bHi, sLo, sHi);
    var restB, restS := Unused(bLo, bHi, Lefts(first)), Unused(sLo, sHi, Rights(first));
    forall i: nat, j: nat | bLo <= i < bHi && sLo <= j < sHi
      ensures OnlyOpen(first, i, j, bLo, bHi, sLo, sHi) <==> restB == [i] && restS == [j]
    {
      UnusedAlone(bLo, bHi, Lefts(first), i);
      UnusedAlone(sLo, sHi, Rights(first), j);
      OpenIs(first, i, bLo, bHi, j, sLo, sHi);
    }
    if |restB| == 1 && |restS| == 1 && sim(base[restB[0]], side[restS[0]]) > 0.0 {
      var i, j := restB[0], restS[0];
      rest := [Pair(i, j)];
      assert restB == [i] && restS == [j];
      LeftoverIsUnlike(sim, base, side, bLo, bHi, sLo, sHi, i, j);
      SimilarSnoc(sim, base, side, first, Pair(i, j));
    } else {
      rest := [];
      assert first + rest == first;
    }
  }

  lemma LeftoverIsUnlike(sim: Measure, base: seq<string>, side: seq<string>, bLo: nat, bHi: nat, sLo: nat, sHi: nat,
                         i: nat, j: nat)
    requires bLo <= i < bHi <= |base| && sLo <= j < sHi <= |side|
    requires var cs := SortDesc(Cands(sim, base, side, bLo, bHi, sLo, sHi));
      OnlyOpen(Greedy(cs, |cs|), i, j, bLo, bHi, sLo, sHi)
    ensures sim(base[i], side[j]) < SIMILAR_THRESHOLD
  {
    hide Cands, SortDesc, Greedy;
    var cs := SortDesc(Cands(sim, base, side, bLo, bHi, sLo, sHi));
    assert OpenBase(Greedy(cs, |cs|), i, bLo, bHi) && OpenSide(Greedy(cs, |cs|), j, sLo, sHi);
    if sim(base[i], side[j]) >= SIMILAR_THRESHOLD {
      AlikeIsCovered(sim, base, side, bLo, bHi, sLo, sHi, i, j);
    }
  }

  lemma AlikeIsCovered(sim: Measure, base: seq<string>, side: seq<string>, bLo: nat, bHi: nat, sLo: nat, sHi: nat,
                       i: nat, j: nat)
    requires bLo <= i < bHi <= |base| && sLo <= j < sHi <= |side| && sim(base[i], side[j]) >= SIMILAR_THRESHOLD
    ensures var cs := SortDesc(Cands(sim, base, side, bLo, bHi, sLo, sHi));
      exists p :: p in Greedy(cs, |cs|) && (p.i == i || p.j == j)
  {
    var cs := SortDesc(Cands(sim, base, side, bLo, bHi, sLo, sHi));
    var c := Cand(i, j, sim(base[i], side[j]));
    SortedExact(sim, base, side, bLo, bHi, sLo, sHi, c);
    var k :| 0 <= k < |cs| && cs[k] == c;
    var p, l := GreedyCovers(cs, |cs|, k);
  }

  lemma OpenIs(ps: seq<Pair>, i: nat, bLo: nat, bHi: nat, j: nat, sLo: nat, sHi: nat)
    requires bLo <= bHi && sLo <= sHi
    ensures OnlyOpen(ps, i, j, bLo, bHi, sLo, sHi) <==>
      OnlyMember(Unused(bLo, bHi, Lefts(ps)), i) && OnlyMember(Unused(sLo, sHi, Rights(ps)), j)
  {
    hide Unused, OnlyMember, BaseAlone, SideAlone, Lefts, Rights;
    BaseAloneIs(ps, i, bLo, bHi);
    SideAloneIs(ps, j, sLo, sHi);
  }

  lemma BaseAloneIs(ps: seq<Pair>, i: nat, lo: nat, hi: nat)
    requires lo <= hi
    ensures BaseAlone(ps, i, lo, hi) <==> OnlyMember(Unused(lo, hi, Lefts(ps)), i)
  {
    hide Unused;
    var xs := Unused(lo, hi, Lefts(ps));
    assert forall x: nat :: OpenBase(ps, x, lo, hi) <==> x in xs;
    if BaseAlone(ps, i, lo, hi) {
      forall y: nat
        ensures y in xs <==> y == i
      {
        assert OpenBase(ps, y, lo, hi) <==> y == i;
      }
    }
  }

  lemma SideAloneIs(ps: seq<Pair>, j: nat, lo: nat, hi: nat)
    requires lo <= hi
    ensures SideAlone(ps, j, lo, hi) <==> OnlyMember(Unused(lo, hi, Rights(ps)), j)
  {
    hide Unused;
    var xs := Unused(lo, hi, Rights(ps));
    assert forall y: nat :: OpenSide(ps, y, lo, hi) <==> y in xs;
    if SideAlone(ps, j, lo, hi) {
      forall y: nat
        ensures y in xs <==> y == j
      {
        assert OpenSide(ps, y, lo, hi) <==> y == j;
      }
    }
  }

  // A pick below the threshold is the leftover.
  lemma UnlikeIsLast(sim: Measure, base: seq<string>, side: seq<string>, bLo: nat, bHi: nat, sLo: nat, sHi: nat,
                     first: seq<Pair>, rest: seq<Pair>, i: nat, j: nat)
    requires bLo <= i < bHi <= |base| && sLo <= j < sHi <= |side|
    requires IsSplit(sim, base, side, bLo, bHi, sLo, sHi, first, rest)
    ensures Pair(i, j) in first + rest && sim(base[i], side[j]) < SIMILAR_THRESHOLD <==> rest == [Pair(i, j)]
    ensures rest == [Pair(i, j)] <==> OnlyOpen(first, i, j, bLo, bHi, sLo, sHi) && sim(base[i], side[j]) > 0.0
  {
    hide OnlyOpen;
    assert Pair(i, j) in first + rest <==> Pair(i, j) in first || Pair(i, j) in rest;
  }

  /** A pair not alike enough to be a rewrite by itself is recorded exactly when its ends are the only
      entries of the gap that no alike pair takes, and they resemble each other at all. */
  lemma LeftoverExactly(sim: Measure, base: seq<string>, side: seq<string>, bLo: nat, bHi: nat, sLo: nat, sHi: nat,
                        i: nat, j: nat)
    requires bLo <= i < bHi <= |base| && sLo <= j < sHi <= |side|
    ensures var picks := GapPicks(sim, base, side, bLo, bHi, sLo, sHi);
      Pair(i, j) in picks && sim(base[i], side[j]) < SIMILAR_THRESHOLD <==>
        OnlyOpen(Similar(sim, base, side, picks), i, j, bLo, bHi, sLo, sHi) && sim(base[i], side[j]) > 0.0
  {
    hide GapPicks, Similar, OnlyOpen, IsSplit;
    var first, rest := GreedyThenLeftover(sim, base, side, bLo, bHi, sLo, sHi);
    UnlikeIsLast(sim, base, side, bLo, bHi, sLo, sHi, first, rest, i, j);
  }

  // Every pair alike enough, but this one.
  ghost predicate OthersAlike(sim: Measure, base: seq<string>, side: seq<string>, ps: seq<Pair>, but: Pair) {
    forall p :: p in ps && p != but ==>
      p.i < |base| && p.j < |side| && sim(base[p.i], side[p.j]) >= SIMILAR_THRESHOLD
  }

  // No entry of the gap is left over.
  ghost predicate NoneOpen(ps: seq<Pair>, bLo: int, bHi: int, sLo: int, sHi: int) {
    (forall x :: !OpenBase(ps, x, bLo, bHi)) && (forall y :: !OpenSide(ps, y, sLo, sHi))
  }

  /** So no gap keeps exactly one entry on each side that resemble each other at all, and a pair below
      the threshold is the only one of its gap and leaves no entry of it unpaired. */
  lemma OneLeftoverAtMost(sim: Measure, base: seq<string>, side: seq<string>, bLo: nat, bHi: nat, sLo: nat, sHi: nat,
                          i: nat, j: nat)
    requires bLo <= i < bHi <= |base| && sLo <= j < sHi <= |side|
    ensures var picks := GapPicks(sim, base, side, bLo, bHi, sLo, sHi);
      && (OnlyOpen(picks, i, j, bLo, bHi, sLo, sHi) ==> sim(base[i], side[j]) <= 0.0)
      && (Pair(i, j) in picks && sim(base[i], side[j]) < SIMILAR_THRESHOLD ==>
            NoneOpen(picks, bLo, bHi, sLo, sHi) && OthersAlike(sim, base, side, picks, Pair(i, j)))
  {
    hide GapPicks, Similar, OnlyOpen, NoneOpen, OthersAlike, IsSplit;
    var first, rest := GreedyThenLeftover(sim, base, side, bLo, bHi, sLo, sHi);
    UnlikeIsLast(sim, base, side, bLo, bHi, sLo, sHi, first, rest, i, j);
    SplitCloses(sim, base, side, bLo, bHi, sLo, sHi, first, rest);
    SomeOpen(first + rest, i, j, bLo, bHi, sLo, sHi);
    if rest == [Pair(i, j)] {
      SplitIsAlike(sim, base, side, bLo, bHi, sLo, sHi, first, rest, Pair(i, j));
    }
    if rest == [] {
      assert first + rest == first;
    }
  }

  lemma SplitIsAlike(sim: Measure, base: seq<string>, side: seq<string>, bLo: nat, bHi: nat, sLo: nat, sHi: nat,
                     first: seq<Pair>, rest: seq<Pair>, p: Pair)
    requires bLo <= bHi <= |base| && sLo <= sHi <= |side|
    requires IsSplit(sim, base, side, bLo, bHi, sLo, sHi, first, rest) && rest == [p]
    ensures OthersAlike(sim, base, side, first + rest, p)
  {
    hide OnlyOpen;
    assert forall q :: q in first + rest <==> q in first || q == p;
  }

  lemma SplitCloses(sim: Measure, base: seq<string>, side: seq<string>, bLo: nat, bHi: nat, sLo: nat, sHi: nat,
                    first: seq<Pair>, rest: seq<Pair>)
    requires bLo <= bHi <= |base| && sLo <= sHi <= |side|
    requires IsSplit(sim, base, side, bLo, bHi, sLo, sHi, first, rest)
    ensures rest != [] ==> NoneOpen(first + rest, bLo, bHi, sLo, sHi)
  {
    hide OnlyOpen, NoneOpen;
    if rest != [] {
      var i, j :| bLo <= i < bHi && sLo <= j < sHi && rest == [Pair(i, j)];
      LastCloses(first, i, j, bLo, bHi, sLo, sHi);
    }
  }

  lemma LastCloses(ps: seq<Pair>, i: nat, j: nat, bLo: nat, bHi: nat, sLo: nat, sHi: nat)
    requires OnlyOpen(ps, i, j, bLo, bHi, sLo, sHi)
    ensures NoneOpen(ps + [Pair(i, j)], bLo, bHi, sLo, sHi)
  {
    var all := ps + [Pair(i, j)];
    assert Pair(i, j) in all && forall p :: p in ps ==> p in all;
    assert forall x :: OpenBase(all, x, bLo, bHi) ==> OpenBase(ps, x, bLo, bHi);
    assert forall y :: OpenSide(all, y, sLo, sHi) ==> OpenSide(ps, y, sLo, sHi);
  }

  lemma SomeOpen(ps: seq<Pair>, i: nat, j: nat, bLo: nat, bHi: nat, sLo: nat, sHi: nat)
    ensures OnlyOpen(ps, i, j, bLo, bHi, sLo, sHi) ==> !NoneOpen(ps, bLo, bHi, sLo, sHi)
  {
    assert OnlyOpen(ps, i, j, bLo, bHi, sLo, sHi) ==> OpenBase(ps, i, bLo, bHi);
  }
}
