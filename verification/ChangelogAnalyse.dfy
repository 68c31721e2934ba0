/** How one side of the merge relates to the base: which base entries it still holds,
    unchanged or rewritten, and which of its entries are new. */
module ChangelogAnalyse {
  import opened ChangelogLcs
  import opened ChangelogAlign

  // origin maps a base entry to the side entry holding it, unchanged or rewritten; modified
  // maps a base entry to its rewritten text; added lists the side entries of no base entry.
  datatype SideInfo = SideInfo(origin: map<nat, nat>, modified: map<nat, string>, added: seq<nat>)

  // The anchors of the gap scan: the matched pairs, then one pair past both ends.
  ghost function Anchors(base: seq<string>, side: seq<string>): seq<Pair> {
    Lcs(base, side) + [Pair(|base|, |side|)]
  }

  // The gap in front of anchor k starts after the anchor before it.
  ghost function GapStart(anchors: seq<Pair>, k: nat): Pair
    requires k < |anchors|
  {
    if k == 0 then Pair(0, 0) else Pair(anchors[k - 1].i + 1, anchors[k - 1].j + 1)
  }

  // A way to pair the base entries bLo..bHi with the side entries sLo..sHi.
  type GapPairing = (nat, nat, nat, nat) -> seq<Pair>

  ghost function Pairing(sim: Measure, base: seq<string>, side: seq<string>): GapPairing {
    (bLo: nat, bHi: nat, sLo: nat, sHi: nat) =>
      if bLo <= bHi <= |base| && sLo <= sHi <= |side|
      then GapPicks(sim, base, side, bLo, bHi, sLo, sHi) else []
  }

  // The pairs of the gap in front of anchor k, then of all gaps in front of the first n anchors.
  ghost function GapAt(pick: GapPairing, anchors: seq<Pair>, k: nat): seq<Pair>
    requires k < |anchors|
  {
    pick(GapStart(anchors, k).i, anchors[k].i, GapStart(anchors, k).j, anchors[k].j)
  }

  ghost function Rewrites(pick: GapPairing, anchors: seq<Pair>, n: nat): seq<Pair>
    requires n <= |anchors|
  {
    if n == 0 then [] else Rewrites(pick, anchors, n - 1) + GapAt(pick, anchors, n - 1)
  }

  ghost function AllRewrites(sim: Measure, base: seq<string>, side: seq<string>): seq<Pair> {
    Rewrites(Pairing(sim, base, side), Anchors(base, side), |Anchors(base, side)|)
  }

  ghost function AllPairs(sim: Measure, base: seq<string>, side: seq<string>): seq<Pair> {
    Lcs(base, side) + AllRewrites(sim, base, side)
  }

  // Maps and lists read off a sequence of pairs, in recording order.
  ghost function OriginOf(ps: seq<Pair>): map<nat, nat> {
    if ps == [] then map[] else OriginOf(ps[..|ps| - 1])[ps[|ps| - 1].i := ps[|ps| - 1].j]
  }

  ghost predicate Within(ps: seq<Pair>, n: nat) {
    forall k :: 0 <= k < |ps| ==> ps[k].j < n
  }

  ghost function TextsOf(side: seq<string>, ps: seq<Pair>): map<nat, string>
    requires Within(ps, |side|)
  {
    if ps == [] then map[] else TextsOf(side, ps[..|ps| - 1])[ps[|ps| - 1].i := side[ps[|ps| - 1].j]]
  }

  ghost function Analysis(sim: Measure, base: seq<string>, side: seq<string>): SideInfo {
    AllPairsSound(sim, base, side);
    SideInfo(OriginOf(AllPairs(sim, base, side)),
             TextsOf(side, AllRewrites(sim, base, side)),
             Unused(0, |side|, Rights(AllPairs(sim, base, side))))
  }

  ghost predicate InBox(ps: seq<Pair>, bLo: nat, bHi: nat, sLo: nat, sHi: nat) {
    forall k :: 0 <= k < |ps| ==> bLo <= ps[k].i < bHi && sLo <= ps[k].j < sHi
  }

  ghost predicate KeepsToGaps(pick: GapPairing, anchors: seq<Pair>) {
    forall k {:trigger GapAt(pick, anchors, k)} :: 0 <= k < |anchors| ==>
      && Distinct(GapAt(pick, anchors, k))
      && InGapAt(GapAt(pick, anchors, k), anchors, k)
  }

  ghost predicate InGapAt(ps: seq<Pair>, anchors: seq<Pair>, k: nat)
    requires k < |anchors|
  {
    InBox(ps, GapStart(anchors, k).i, anchors[k].i, GapStart(anchors, k).j, anchors[k].j)
  }

  lemma {:induction false} AnchorsOrdered(base: seq<string>, side: seq<string>)
    ensures Increasing(Anchors(base, side))
    ensures forall k :: 0 <= k < |Anchors(base, side)| ==>
      Anchors(base, side)[k].i <= |base| && Anchors(base, side)[k].j <= |side|
  {
    LcsIsLongest(base, side);
    var ps, anchors := Lcs(base, side), Anchors(base, side);
    assert forall k :: 0 <= k < |ps| ==> anchors[k] == ps[k];
  }

  lemma {:induction false} PairingKeepsToGap(sim: Measure, base: seq<string>, side: seq<string>, k: nat)
    requires k < |Anchors(base, side)|
    ensures var ps := GapAt(Pairing(sim, base, side), Anchors(base, side), k);
      Distinct(ps) && InGapAt(ps, Anchors(base, side), k)
  {
    var anchors := Anchors(base, side);
    AnchorsOrdered(base, side);
    var start, end := GapStart(anchors, k), anchors[k];
    GapPicksSound(sim, base, side, start.i, end.i, start.j, end.j);
    var ps := GapPicks(sim, base, side, start.i, end.i, start.j, end.j);
    forall l | 0 <= l < |ps|
      ensures start.i <= ps[l].i < end.i && start.j <= ps[l].j < end.j
    {
      assert SoundPick(sim, base, side, ps[l], start.i, end.i, start.j, end.j);
    }
  }

  lemma {:induction false} PairingKeepsToGaps(sim: Measure, base: seq<string>, side: seq<string>)
    ensures KeepsToGaps(Pairing(sim, base, side), Anchors(base, side))
  {
    forall k | 0 <= k < |Anchors(base, side)| {
      PairingKeepsToGap(sim, base, side, k);
    }
  }

  lemma {:induction false} PairingAt(sim: Measure, base: seq<string>, side: seq<string>, k: nat)
    requires k < |Anchors(base, side)|
    ensures var anchors := Anchors(base, side);
      && GapStart(anchors, k).i <= anchors[k].i <= |base|
      && GapStart(anchors, k).j <= anchors[k].j <= |side|
      && GapAt(Pairing(sim, base, side), anchors, k)
        == GapPicks(sim, base, side, GapStart(anchors, k).i, anchors[k].i, GapStart(anchors, k).j, anchors[k].j)
  {
    AnchorsOrdered(base, side);
  }

  lemma {:induction false} BetweenAnchors(anchors: seq<Pair>, n: nat, p: Pair)
    requires Increasing(anchors) && n < |anchors|
    requires GapStart(anchors, n).i <= p.i < anchors[n].i
    requires GapStart(anchors, n).j <= p.j < anchors[n].j
    ensures InOneGap(anchors, p)
  {
    forall k | 0 <= k < |anchors|
      ensures anchors[k].i != p.i && anchors[k].j != p.j && (anchors[k].i < p.i <==> anchors[k].j < p.j)
    {
      if k < n {
        assert k < n - 1 ==> anchors[k].i < anchors[n - 1].i && anchors[k].j < anchors[n - 1].j;
      } else {
        assert k > n ==> anchors[n].i < anchors[k].i && anchors[n].j < anchors[k].j;
      }
    }
  }

  // Every rewrite comes from one gap.
  lemma {:induction false} RewriteFrom(pick: GapPairing, anchors: seq<Pair>, n: nat, p: Pair) returns (k: nat)
    requires n <= |anchors| && p in Rewrites(pick, anchors, n)
    ensures k < n && p in GapAt(pick, anchors, k)
  {
    if p in Rewrites(pick, anchors, n - 1) {
      k := RewriteFrom(pick, anchors, n - 1, p);
    } else {
      k := n - 1;
    }
  }

  lemma {:induction false} RewriteInGap(pick: GapPairing, anchors: seq<Pair>, n: nat, p: Pair)
    requires Increasing(anchors) && KeepsToGaps(pick, anchors)
    requires n <= |anchors| && p in Rewrites(pick, anchors, n)
    ensures n > 0 && p.i < anchors[n - 1].i && p.j < anchors[n - 1].j
    ensures InOneGap(anchors, p)
  {
    var k := RewriteFrom(pick, anchors, n, p);
    var l :| 0 <= l < |GapAt(pick, anchors, k)| && GapAt(pick, anchors, k)[l] == p;
    BetweenAnchors(anchors, k, p);
    assert k < n - 1 ==> anchors[k].i < anchors[n - 1].i && anchors[k].j < anchors[n - 1].j;
  }

  lemma {:induction false} DistinctAppend(ps: seq<Pair>, qs: seq<Pair>)
    requires Distinct(ps) && Distinct(qs)
    requires forall p, q :: p in ps && q in qs ==> p.i != q.i && p.j != q.j
    ensures Distinct(ps + qs)
  {
    var all := ps + qs;
    forall k, l | 0 <= k < l < |all|
      ensures all[k].i != all[l].i && all[k].j != all[l].j
    {
      if k < |ps| <= l {
        assert all[k] in ps && all[l] in qs;
      }
    }
  }

  lemma {:induction false} RewritesDistinct(pick: GapPairing, anchors: seq<Pair>, n: nat)
    requires Increasing(anchors) && KeepsToGaps(pick, anchors)
    requires n <= |anchors|
    ensures Distinct(Rewrites(pick, anchors, n))
  {
    hide InOneGap, GapAt, KeepsToGaps, Distinct;
    if n > 0 {
      RewritesDistinct(pick, anchors, n - 1);
      var prev, last := Rewrites(pick, anchors, n - 1), GapAt(pick, anchors, n - 1);
      forall p, q | p in prev && q in last
        ensures p.i != q.i && p.j != q.j
      {
        EarlierGapsApart(pick, anchors, n - 1, p, q);
      }
      GapIsDistinct(pick, anchors, n - 1);
      DistinctAppend(prev, last);
    } else {
      NoneAreDistinct();
    }
  }

  lemma EarlierGapsApart(pick: GapPairing, anchors: seq<Pair>, n: nat, p: Pair, q: Pair)
    requires Increasing(anchors) && KeepsToGaps(pick, anchors)
    requires n < |anchors| && p in Rewrites(pick, anchors, n) && q in GapAt(pick, anchors, n)
    ensures p.i != q.i && p.j != q.j
  {
    hide InOneGap, Increasing;
    RewriteInGap(pick, anchors, n, p);
    var last := GapAt(pick, anchors, n);
    var l :| 0 <= l < |last| && last[l] == q;
  }

  lemma GapIsDistinct(pick: GapPairing, anchors: seq<Pair>, n: nat)
    requires KeepsToGaps(pick, anchors) && n < |anchors|
    ensures Distinct(GapAt(pick, anchors, n))
  {
    hide Distinct, InGapAt;
  }

  lemma NoneAreDistinct()
    ensures Distinct([])
  {
  }

  // A rewrite of the analysis lies in one gap of the matched pairs and pairs texts alike.
  lemma {:induction false} RewriteSound(sim: Measure, base: seq<string>, side: seq<string>, p: Pair)
    requires p in AllRewrites(sim, base, side)
    ensures p.i < |base| && p.j < |side| && sim(base[p.i], side[p.j]) > 0.0
    ensures InOneGap(Lcs(base, side), p)
  {
    var anchors := Anchors(base, side);
    AnchorsOrdered(base, side);
    PairingKeepsToGaps(sim, base, side);
    RewriteInGap(Pairing(sim, base, side), anchors, |anchors|, p);
    assert forall k :: 0 <= k < |Lcs(base, side)| ==> anchors[k] == Lcs(base, side)[k];
    var k := RewriteFrom(Pairing(sim, base, side), anchors, |anchors|, p);
    GapPicksSound(sim, base, side, GapStart(anchors, k).i, anchors[k].i, GapStart(anchors, k).j, anchors[k].j);
    assert SoundPick(sim, base, side, p, GapStart(anchors, k).i, anchors[k].i, GapStart(anchors, k).j, anchors[k].j);
  }

  lemma {:induction false} AllPairsSound(sim: Measure, base: seq<string>, side: seq<string>)
    ensures Distinct(AllPairs(sim, base, side))
    ensures Within(AllPairs(sim, base, side), |side|)
    ensures Distinct(AllRewrites(sim, base, side))
    ensures Within(AllRewrites(sim, base, side), |side|)
    ensures InBox(AllRewrites(sim, base, side), 0, |base|, 0, |side|)
  {
    hide Lcs, Rewrites, Pairing, KeepsToGaps, GapAt;
    var ps, rs := Lcs(base, side), AllRewrites(sim, base, side);
    LcsIsLongest(base, side);
    AnchorsOrdered(base, side);
    PairingKeepsToGaps(sim, base, side);
    RewritesDistinct(Pairing(sim, base, side), Anchors(base, side), |Anchors(base, side)|);
    forall p, q | p in ps && q in rs
      ensures p.i != q.i && p.j != q.j
    {
      RewriteSound(sim, base, side, q);
      var k :| 0 <= k < |ps| && ps[k] == p;
    }
    DistinctAppend(ps, rs);
    forall k | 0 <= k < |rs|
      ensures rs[k].i < |base| && rs[k].j < |side|
    {
      RewriteSound(sim, base, side, rs[k]);
    }
  }

  lemma OriginSnoc(ps: seq<Pair>, p: Pair)
    ensures OriginOf(ps + [p]) == OriginOf(ps)[p.i := p.j]
  {
    assert (ps + [p])[..|ps|] == ps;
  }

  lemma TextsSnoc(side: seq<string>, ps: seq<Pair>, p: Pair)
    requires Within(ps, |side|) && p.j < |side|
    ensures Within(ps + [p], |side|)
    ensures TextsOf(side, ps + [p]) == TextsOf(side, ps)[p.i := side[p.j]]
  {
    assert (ps + [p])[..|ps|] == ps;
  }

  // The analysis under construction. The seen flags mark exactly the entries of the pairs
  // recorded so far.
  class Recorder {
    var origin: map<nat, nat>
    var modified: map<nat, string>
    const base: seq<string>
    const side: seq<string>
    const baseSeen: array<bool>
    const sideSeen: array<bool>
    ghost var anchored: seq<Pair>
    ghost var rewritten: seq<Pair>

    ghost predicate Valid()
      reads this, sideSeen
    {
      && Within(rewritten, |side|)
      && origin == OriginOf(anchored + rewritten)
      && modified == TextsOf(side, rewritten)
      && baseSeen.Length == |base| && sideSeen.Length == |side|
      && baseSeen != sideSeen
      && forall j :: 0 <= j < |side| ==> (sideSeen[j] <==> j in Rights(anchored + rewritten))
    }

    constructor (base: seq<string>, side: seq<string>)
      ensures Valid() && anchored == [] && rewritten == []
      ensures this.base == base && this.side == side
      ensures fresh(baseSeen) && fresh(sideSeen)
    {
      origin, modified := map[], map[];
      this.base, this.side := base, side;
      baseSeen := new bool[|base|](_ => false);
      sideSeen := new bool[|side|](_ => false);
      anchored, rewritten := [], [];
    }

    // An entry both lists hold unchanged.
    method Anchor(p: Pair)
      requires Valid() && rewritten == []
      requires p.i < |base| && p.j < |side|
      modifies this, baseSeen, sideSeen
      ensures Valid() && anchored == old(anchored) + [p] && rewritten == []
    {
      assert anchored + rewritten == anchored;
      OriginSnoc(anchored, p);
      LeftsRightsSnoc(anchored, p);
      origin := origin[p.i := p.j];
      baseSeen[p.i] := true;
      sideSeen[p.j] := true;
      anchored := anchored + [p];
      assert anchored + rewritten == anchored;
    }

    // A base entry rewritten on this side.
    method PairUp(p: Pair)
      requires Valid()
      requires p.i < |base| && p.j < |side|
      modifies this, baseSeen, sideSeen
      ensures Valid() && anchored == old(anchored) && rewritten == old(rewritten) + [p]
    {
      OriginSnoc(anchored + rewritten, p);
      LeftsRightsSnoc(anchored + rewritten, p);
      TextsSnoc(side, rewritten, p);
      assert anchored + (rewritten + [p]) == (anchored + rewritten) + [p];
      origin := origin[p.i := p.j];
      modified := modified[p.i := side[p.j]];
      baseSeen[p.i] := true;
      sideSeen[p.j] := true;
      rewritten := rewritten + [p];
    }

    method Info() returns (info: SideInfo)
      requires Valid()
      ensures info.origin == OriginOf(anchored + rewritten) && info.modified == TextsOf(side, rewritten)
      ensures info.added == Unused(0, |side|, Rights(anchored + rewritten))
    {
      var added := Added();
      return SideInfo(origin, modified, added);
    }

    method Added() returns (added: seq<nat>)
      requires Valid()
      ensures added == Unused(0, |side|, Rights(anchored + rewritten))
    {
      added := [];
      for j := 0 to |side|
        invariant added == Unused(0, j, Rights(anchored + rewritten))
      {
        if !sideSeen[j] {
          added := added + [j];
        }
      }
    }
  }

  method Analyse(sim: Measure, base: seq<string>, side: seq<string>) returns (info: SideInfo)
    ensures info == Analysis(sim, base, side)
  {
    var pairs := LcsPairs(base, side);
    var rec := new Recorder(base, side);
    RecordAnchors(rec, pairs);
    ScanGaps(sim, rec, pairs);
    AllPairsSound(sim, base, side);
    info := rec.Info();
  }

  method RecordAnchors(rec: Recorder, pairs: seq<Pair>)
    requires rec.Valid() && rec.anchored == [] && rec.rewritten == []
    requires pairs == Lcs(rec.base, rec.side)
    modifies rec, rec.baseSeen, rec.sideSeen
    ensures rec.Valid() && rec.anchored == pairs && rec.rewritten == []
  {
    LcsIsLongest(rec.base, rec.side);
    for k := 0 to |pairs|
      invariant rec.Valid() && rec.rewritten == [] && rec.anchored == pairs[..k]
    {
      rec.Anchor(pairs[k]);
    }
  }

  // Pair rewritten entries only inside one gap: the entries between two anchors on both sides.
  method ScanGaps(sim: Measure, rec: Recorder, pairs: seq<Pair>)
    requires rec.Valid() && rec.anchored == pairs == Lcs(rec.base, rec.side) && rec.rewritten == []
    modifies rec, rec.baseSeen, rec.sideSeen
    ensures rec.Valid() && rec.anchored == pairs && rec.rewritten == AllRewrites(sim, rec.base, rec.side)
  {
    hide GapPicks;
    ghost var pick := Pairing(sim, rec.base, rec.side);
    var anchors := pairs + [Pair(|rec.base|, |rec.side|)];
    var prevB: nat, prevS: nat := 0, 0; // one past the previous anchor
    for k := 0 to |anchors|
      invariant rec.Valid() && rec.anchored == pairs && rec.rewritten == Rewrites(pick, anchors, k)
      invariant k < |anchors| ==> GapStart(anchors, k) == Pair(prevB, prevS)
    {
      PairingAt(sim, rec.base, rec.side, k);
      PairingInBox(sim, rec.base, rec.side, k);
      var picks := PairGap(sim, rec.base, rec.side, prevB, anchors[k].i, prevS, anchors[k].j);
      PairUpAll(rec, picks);
      prevB, prevS := anchors[k].i + 1, anchors[k].j + 1;
    }
  }

  lemma PairingInBox(sim: Measure, base: seq<string>, side: seq<string>, k: nat)
    requires k < |Anchors(base, side)|
    ensures InBox(GapAt(Pairing(sim, base, side), Anchors(base, side), k), 0, |base|, 0, |side|)
  {
    hide GapPicks;
    PairingKeepsToGap(sim, base, side, k);
    AnchorsOrdered(base, side);
  }

  method PairUpAll(rec: Recorder, picks: seq<Pair>)
    requires rec.Valid()
    requires InBox(picks, 0, |rec.base|, 0, |rec.side|)
    modifies rec, rec.baseSeen, rec.sideSeen
    ensures rec.Valid() && rec.anchored == old(rec.anchored) && rec.rewritten == old(rec.rewritten) + picks
  {
    for k := 0 to |picks|
      invariant rec.Valid() && rec.anchored == old(rec.anchored)
      invariant rec.rewritten == old(rec.rewritten) + picks[..k]
    {
      rec.PairUp(picks[k]);
    }
  }

  // What an analysis says about its two lists, whatever way the gaps were paired.
  ghost predicate Aligned(base: seq<string>, side: seq<string>, info: SideInfo) {
    && info.modified.Keys <= info.origin.Keys
    && (forall i :: i in info.origin ==> i < |base| && info.origin[i] < |side|)
    && (forall i, k :: i in info.origin && k in info.origin && info.origin[i] == info.origin[k] ==> i == k)
    && (forall i :: i in info.origin && i !in info.modified ==> side[info.origin[i]] == base[i])
    && (forall i :: i in info.modified ==> side[info.origin[i]] == info.modified[i])
    && (forall i :: i in info.modified ==> info.modified[i] != base[i] && info.modified[i] != "")
    && (forall k, l :: 0 <= k < l < |info.added| ==> info.added[k] < info.added[l])
    && (forall j :: j in info.added <==> 0 <= j < |side| && j !in info.origin.Values)
  }

  lemma {:induction false} LastIsNew(ps: seq<Pair>)
    requires Distinct(ps) && ps != []
    ensures ps[|ps| - 1].i !in Lefts(ps[..|ps| - 1])
    ensures ps[|ps| - 1].j !in Rights(ps[..|ps| - 1])
    ensures Distinct(ps[..|ps| - 1])
  {
    var prev := ps[..|ps| - 1];
    forall q | q in prev
      ensures q.i != ps[|ps| - 1].i && q.j != ps[|ps| - 1].j
    {
      var k :| 0 <= k < |prev| && prev[k] == q;
      assert ps[k] == q;
    }
  }

  // The recorded map is exactly the set of pairs.
  lemma {:induction false} OriginExact(ps: seq<Pair>, i: nat)
    requires Distinct(ps)
    ensures i in OriginOf(ps) <==> i in Lefts(ps)
    ensures i in OriginOf(ps) ==> Pair(i, OriginOf(ps)[i]) in ps
  {
    if ps != [] {
      var prev, p := ps[..|ps| - 1], ps[|ps| - 1];
      LastIsNew(ps);
      OriginExact(prev, i);
      assert ps == prev + [p];
      LeftsRightsSnoc(prev, p);
      hide Lefts, Rights, Distinct;
    }
  }

  lemma {:induction false} TextsExact(side: seq<string>, ps: seq<Pair>, i: nat)
    requires Distinct(ps) && Within(ps, |side|)
    ensures i in TextsOf(side, ps) <==> i in Lefts(ps)
    ensures i in TextsOf(side, ps) ==>
      exists j :: 0 <= j < |side| && Pair(i, j) in ps && TextsOf(side, ps)[i] == side[j]
  {
    if ps != [] {
      var prev, p := ps[..|ps| - 1], ps[|ps| - 1];
      LastIsNew(ps);
      TextsExact(side, prev, i);
      assert ps == prev + [p];
      LeftsRightsSnoc(prev, p);
      if i == p.i {
        assert Pair(i, p.j) in ps;
      }
    }
  }

  // An entry the base and a side both hold, seen through the analysis.
  lemma {:induction false} OriginPair(sim: Measure, base: seq<string>, side: seq<string>, i: nat)
    requires i in Analysis(sim, base, side).origin
    ensures Pair(i, Analysis(sim, base, side).origin[i]) in AllPairs(sim, base, side)
    ensures i < |base| && Analysis(sim, base, side).origin[i] < |side|
  {
    AllPairsSound(sim, base, side);
    OriginExact(AllPairs(sim, base, side), i);
    var p := Pair(i, Analysis(sim, base, side).origin[i]);
    if p in AllRewrites(sim, base, side) {
      RewriteSound(sim, base, side, p);
    } else {
      LcsIsLongest(base, side);
    }
  }

  lemma {:induction false} SamePair(ps: seq<Pair>, p: Pair, q: Pair)
    requires Distinct(ps) && p in ps && q in ps
    ensures p.i == q.i || p.j == q.j ==> p == q
  {
    var k :| 0 <= k < |ps| && ps[k] == p;
    var l :| 0 <= l < |ps| && ps[l] == q;
  }

  // An unchanged entry keeps its text; a rewritten one differs from it.
  lemma {:induction false} OriginText(sim: Measure, base: seq<string>, side: seq<string>, i: nat)
    requires i in Analysis(sim, base, side).origin
    ensures var info := Analysis(sim, base, side);
      && i < |base| && info.origin[i] < |side|
      && (i !in info.modified ==> side[info.origin[i]] == base[i])
      && (i in info.modified ==>
        && info.modified[i] == side[info.origin[i]]
        && info.modified[i] != base[i]
        && sim(base[i], info.modified[i]) > 0.0)
  {
    var info := Analysis(sim, base, side);
    OriginPair(sim, base, side, i);
    AllPairsSound(sim, base, side);
    var p := Pair(i, info.origin[i]);
    var rs := AllRewrites(sim, base, side);
    TextsExact(side, rs, i);
    if i in info.modified {
      var j :| 0 <= j < |side| && Pair(i, j) in rs && info.modified[i] == side[j];
      SamePair(AllPairs(sim, base, side), p, Pair(i, j));
      RewriteSound(sim, base, side, p);
      GapsHoldNoEqualPair(base, side, p);
    } else {
      assert p !in rs;
      LcsIsLongest(base, side);
    }
  }

  lemma {:induction false} ModifiedHasOrigin(sim: Measure, base: seq<string>, side: seq<string>, i: nat)
    requires i in Analysis(sim, base, side).modified
    ensures i in Analysis(sim, base, side).origin
  {
    AllPairsSound(sim, base, side);
    var rs := AllRewrites(sim, base, side);
    TextsExact(side, rs, i);
    OriginExact(AllPairs(sim, base, side), i);
    var j :| 0 <= j < |side| && Pair(i, j) in rs;
    assert Pair(i, j) in AllPairs(sim, base, side);
  }

  lemma {:induction false} OriginInjective(sim: Measure, base: seq<string>, side: seq<string>, i: nat, k: nat)
    requires var o := Analysis(sim, base, side).origin; i in o && k in o && o[i] == o[k]
    ensures i == k
  {
    OriginPair(sim, base, side, i);
    OriginPair(sim, base, side, k);
    AllPairsSound(sim, base, side);
    var o := Analysis(sim, base, side).origin;
    SamePair(AllPairs(sim, base, side), Pair(i, o[i]), Pair(k, o[k]));
  }

  // Every side entry is mapped or added, never both.
  lemma {:induction false} MappedOrAdded(sim: Measure, base: seq<string>, side: seq<string>, j: nat)
    requires j < |side|
    ensures var info := Analysis(sim, base, side); j in info.added <==> j !in info.origin.Values
  {
    var info := Analysis(sim, base, side);
    var all := AllPairs(sim, base, side);
    AllPairsSound(sim, base, side);
    if j in Rights(all) {
      var p :| p in all && p.j == j;
      OriginExact(all, p.i);
      assert p.i in info.origin;
      SamePair(all, p, Pair(p.i, info.origin[p.i]));
      assert info.origin[p.i] == j;
    }
    if j in info.origin.Values {
      var i :| i in info.origin && info.origin[i] == j;
      OriginPair(sim, base, side, i);
    }
  }

  /** The analysis aligns its two lists: the map into the side is injective, every side entry
      is mapped or added but not both, an unmodified entry kept its text, and a modified one
      really has another text (no equal pair can be left in a gap of a longest common
      subsequence) that is not empty. */
  lemma {:induction false} AnalysisAligns(sim: Measure, base: seq<string>, side: seq<string>)
    requires PositiveOnText(sim)
    ensures Aligned(base, side, Analysis(sim, base, side))
  {
    var info := Analysis(sim, base, side);
    forall i | i in info.modified
      ensures i in info.origin
    {
      ModifiedHasOrigin(sim, base, side, i);
    }
    forall i | i in info.origin
      ensures i < |base| && info.origin[i] < |side|
      ensures i !in info.modified ==> side[info.origin[i]] == base[i]
      ensures i in info.modified ==>
        side[info.origin[i]] == info.modified[i] && info.modified[i] != base[i] && info.modified[i] != ""
    {
      OriginText(sim, base, side, i);
    }
    forall i, k | i in info.origin && k in info.origin && info.origin[i] == info.origin[k]
      ensures i == k
    {
      OriginInjective(sim, base, side, i, k);
    }
    UnusedRises(0, |side|, Rights(AllPairs(sim, base, side)));
    forall j | 0 <= j < |side|
      ensures j in info.added <==> j !in info.origin.Values
    {
      MappedOrAdded(sim, base, side, j);
    }
  }

  // p lies in the gap in front of anchor k.
  ghost predicate InGap(anchors: seq<Pair>, k: nat, p: Pair)
    requires k < |anchors|
  {
    GapStart(anchors, k).i <= p.i < anchors[k].i && GapStart(anchors, k).j <= p.j < anchors[k].j
  }

  lemma {:induction false} GapBefore(base: seq<string>, side: seq<string>, p: Pair, n: nat) returns (k: nat)
    requires InOneGap(Lcs(base, side), p) && n < |Anchors(base, side)|
    requires p.i < Anchors(base, side)[n].i && p.j < Anchors(base, side)[n].j
    ensures k <= n && InGap(Anchors(base, side), k, p)
  {
    hide Lcs;
    var anchors := Anchors(base, side);
    k := n;
    if n > 0 {
      assert anchors[n - 1] == Lcs(base, side)[n - 1];
      if p.i < anchors[n - 1].i {
        k := GapBefore(base, side, p, n - 1);
      }
    }
  }

  lemma {:induction false} RewritesHold(pick: GapPairing, anchors: seq<Pair>, n: nat, k: nat)
    requires k < n <= |anchors|
    ensures forall p :: p in GapAt(pick, anchors, k) ==> p in Rewrites(pick, anchors, n)
  {
    hide GapAt;
    if k < n - 1 {
      RewritesHold(pick, anchors, n - 1, k);
    }
  }

  lemma GapsFollow(anchors: seq<Pair>, k: nat, l: nat)
    requires Increasing(anchors) && k < |anchors| && l < |anchors|
    ensures k < l ==> anchors[k].i < GapStart(anchors, l).i
  {
    assert k < l - 1 ==> anchors[k].i < anchors[l - 1].i;
  }

  lemma OneGapOnly(anchors: seq<Pair>, k: nat, l: nat, p: Pair)
    requires Increasing(anchors) && k < |anchors| && l < |anchors| && InGap(anchors, k, p) && InGap(anchors, l, p)
    ensures k == l
  {
    GapsFollow(anchors, k, l);
    GapsFollow(anchors, l, k);
  }

  // The analysis holds i as rewritten to j.
  ghost predicate Rewrote(info: SideInfo, i: nat, j: nat) {
    i in info.modified && i in info.origin && info.origin[i] == j
  }

  lemma {:induction false} RewroteIsRecorded(sim: Measure, base: seq<string>, side: seq<string>, i: nat, j: nat)
    ensures Rewrote(Analysis(sim, base, side), i, j) <==> Pair(i, j) in AllRewrites(sim, base, side)
  {
    hide AllRewrites, Lcs;
    AllPairsSound(sim, base, side);
    var all, rs := AllPairs(sim, base, side), AllRewrites(sim, base, side);
    OriginExact(all, i);
    TextsExact(side, rs, i);
    var info := Analysis(sim, base, side);
    if i in info.modified {
      ModifiedHasOrigin(sim, base, side, i);
      var x :| 0 <= x < |side| && Pair(i, x) in rs;
      assert Pair(i, x) in all;
      SamePair(all, Pair(i, x), Pair(i, info.origin[i]));
    }
    if Pair(i, j) in rs {
      assert Pair(i, j) in all;
      SamePair(all, Pair(i, j), Pair(i, info.origin[i]));
    }
  }

  /** An entry counts as rewritten to another exactly when the pairing of their gap pairs the two. */
  lemma {:induction false} RewrittenExactly(sim: Measure, base: seq<string>, side: seq<string>, k: nat, i: nat, j: nat)
    requires k < |Anchors(base, side)| && InGap(Anchors(base, side), k, Pair(i, j))
    ensures var start, end := GapStart(Anchors(base, side), k), Anchors(base, side)[k];
      && start.i <= end.i <= |base| && start.j <= end.j <= |side|
      && (Rewrote(Analysis(sim, base, side), i, j) <==>
            Pair(i, j) in GapPicks(sim, base, side, start.i, end.i, start.j, end.j))
  {
    hide Analysis, Rewrote, Lcs, GapPicks, Rewrites;
    var anchors, pick, p := Anchors(base, side), Pairing(sim, base, side), Pair(i, j);
    AnchorsOrdered(base, side);
    PairingAt(sim, base, side, k);
    RewroteIsRecorded(sim, base, side, i, j);
    RewritesHold(pick, anchors, |anchors|, k);
    if p in AllRewrites(sim, base, side) {
      var l := RewriteFrom(pick, anchors, |anchors|, p);
      PairingKeepsToGap(sim, base, side, l);
      var x :| 0 <= x < |GapAt(pick, anchors, l)| && GapAt(pick, anchors, l)[x] == p;
      OneGapOnly(anchors, k, l, p);
    }
  }

  /** Two entries between the same unchanged neighbours that are alike enough to be one rewritten entry
      are held as that, or one of them as the rewrite of a text at least as alike. */
  lemma {:induction false} AlikeEntriesArePaired(sim: Measure, base: seq<string>, side: seq<string>, i: nat, j: nat)
    requires i < |base| && j < |side| && InOneGap(Lcs(base, side), Pair(i, j))
    requires sim(base[i], side[j]) >= SIMILAR_THRESHOLD
    ensures exists x: nat, y: nat ::
      && Rewrote(Analysis(sim, base, side), x, y) && (x == i || y == j)
      && x < |base| && y < |side| && sim(base[x], side[y]) >= sim(base[i], side[j])
  {
    hide Analysis, Rewrote, Lcs, GapPicks;
    var anchors := Anchors(base, side);
    AnchorsOrdered(base, side);
    var k := GapBefore(base, side, Pair(i, j), |anchors| - 1);
    var start, end := GapStart(anchors, k), anchors[k];
    NoBlockingPair(sim, base, side, start.i, end.i, start.j, end.j, i, j);
    var p :|
      && p in GapPicks(sim, base, side, start.i, end.i, start.j, end.j) && (p.i == i || p.j == j)
      && p.i < |base| && p.j < |side| && sim(base[p.i], side[p.j]) >= sim(base[i], side[j]);
    GapPicksSound(sim, base, side, start.i, end.i, start.j, end.j);
    assert SoundPick(sim, base, side, p, start.i, end.i, start.j, end.j);
    RewrittenExactly(sim, base, side, k, p.i, p.j);
  }

  // Every base entry is held unchanged at its own place, and nothing is new.
  ghost predicate Untouched(base: seq<string>, info: SideInfo) {
    && info.modified == map[]
    && info.added == []
    && (forall i :: i in info.origin <==> 0 <= i < |base|)
    && (forall i :: i in info.origin ==> info.origin[i] == i)
  }

  lemma {:induction false} EmptyGaps(pick: GapPairing, anchors: seq<Pair>, n: nat)
    requires n <= |anchors|
    requires forall k {:trigger GapAt(pick, anchors, k)} :: 0 <= k < |anchors| ==> GapAt(pick, anchors, k) == []
    ensures Rewrites(pick, anchors, n) == []
  {
    if n > 0 {
      EmptyGaps(pick, anchors, n - 1);
    }
  }

  lemma {:induction false} AnchorsOfSame(base: seq<string>)
    ensures |Anchors(base, base)| == |base| + 1
    ensures forall k :: 0 <= k <= |base| ==> Anchors(base, base)[k] == Pair(k, k)
  {
    LcsOfSame(base);
  }

  lemma {:induction false} GapOfSame(sim: Measure, base: seq<string>, k: nat)
    requires k < |Anchors(base, base)|
    ensures GapAt(Pairing(sim, base, base), Anchors(base, base), k) == []
  {
    AnchorsOfSame(base);
    PairingAt(sim, base, base, k);
    NoCands(sim, base, base, k, k, k, k);
  }

  lemma {:induction false} AllPairsOfSame(sim: Measure, base: seq<string>)
    ensures AllRewrites(sim, base, base) == []
    ensures AllPairs(sim, base, base) == Diagonal(0, |base|)
  {
    LcsOfSame(base);
    var anchors := Anchors(base, base);
    forall k | 0 <= k < |anchors| {
      GapOfSame(sim, base, k);
    }
    EmptyGaps(Pairing(sim, base, base), anchors, |anchors|);
  }

  lemma {:induction false} OriginOfDiagonal(n: nat)
    ensures forall i :: i in OriginOf(Diagonal(0, n)) <==> 0 <= i < n
    ensures forall i :: i in OriginOf(Diagonal(0, n)) ==> OriginOf(Diagonal(0, n))[i] == i
    ensures forall j :: 0 <= j < n ==> j in Rights(Diagonal(0, n))
  {
    var ps := Diagonal(0, n);
    forall i: nat
      ensures i in OriginOf(ps) <==> i < n
      ensures i in OriginOf(ps) ==> OriginOf(ps)[i] == i
      ensures i < n ==> i in Rights(ps)
    {
      OriginExact(ps, i);
      if i < n {
        assert ps[i] in ps;
      }
    }
  }

  lemma {:induction false} UnusedNone(lo: nat, hi: nat, used: set<nat>)
    requires lo <= hi && forall x :: lo <= x < hi ==> x in used
    ensures Unused(lo, hi, used) == []
  {
    if lo < hi {
      UnusedNone(lo, hi - 1, used);
    }
  }

  /** A side equal to the base holds every entry unchanged and adds nothing. */
  lemma {:induction false} AnalysisOfSame(sim: Measure, base: seq<string>)
    ensures Untouched(base, Analysis(sim, base, base))
  {
    AllPairsOfSame(sim, base);
    OriginOfDiagonal(|base|);
    UnusedNone(0, |base|, Rights(AllPairs(sim, base, base)));
  }
}
