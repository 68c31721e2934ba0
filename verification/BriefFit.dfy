/** Fitting a brief into a line budget: sections are cut in order, every heading stays, and the
    last section is never touched. A line of a section is one rendered line. */
module BriefFit {
  datatype Section = Section(title: string, lines: seq<string>, note: string, more: string, truncated: nat)

  function NoteLines(s: Section): nat { if s.note != "" then 1 else 0 }

  // Blank line, heading, note and lines.
  function SectionCost(s: Section): nat { 2 + |s.lines| + NoteLines(s) }

  // What a section costs cut to nothing, with its marker.
  function Head(s: Section): nat { 2 + NoteLines(s) + 1 }

  function SumHeads(ss: seq<Section>): nat {
    if ss == [] then 0 else Head(ss[0]) + SumHeads(ss[1..])
  }

  function SumCosts(ss: seq<Section>): nat {
    if ss == [] then 0 else SectionCost(ss[0]) + SumCosts(ss[1..])
  }

  // The rendered text, line by line. The note and the marker are one line each.
  function SectionText(s: Section): seq<string> {
    ["", "## " + s.title]
    + (if s.note != "" then [s.note] else [])
    + s.lines
    + (if s.truncated > 0 then ["(cut) " + s.more] else [])
  }

  function TextOf(ss: seq<Section>): seq<string> {
    if ss == [] then [] else SectionText(ss[0]) + TextOf(ss[1..])
  }

  function Text(header: string, sections: seq<Section>): seq<string> {
    [header] + TextOf(sections)
  }

  function CutTo(s: Section, keep: int): Section {
    var k := if keep < 0 then 0 else keep;
    if k < |s.lines| then s.(truncated := |s.lines| - k, lines := s.lines[..k]) else s
  }

  // One section, with reserve lines needed by those after it, and what is left behind it.
  function CutFirst(s: Section, reserve: nat, left: int): Section {
    if SectionCost(s) <= left - reserve then s else CutTo(s, left - reserve - Head(s))
  }

  function LeftAfter(s: Section, reserve: nat, left: int): int {
    if SectionCost(s) <= left - reserve then left - SectionCost(s)
    else left - (Head(s) + |CutFirst(s, reserve, left).lines|)
  }

  // The cut of every section but the last, from the lines left for them.
  function FitFrom(ss: seq<Section>, left: int): (out: seq<Section>)
    ensures |out| == |ss|
  {
    if ss == [] then []
    else
      var reserve := SumHeads(ss[1..]);
      [CutFirst(ss[0], reserve, left)] + FitFrom(ss[1..], LeftAfter(ss[0], reserve, left))
  }

  function Fitted(sections: seq<Section>, maxLines: int): (out: seq<Section>)
    ensures |out| == |sections|
  {
    if sections == [] || 1 + SumCosts(sections) <= maxLines then sections
    else
      var n := |sections| - 1;
      FitFrom(sections[..n], maxLines - 1 - SectionCost(sections[n])) + [sections[n]]
  }

  method Fit(sections: seq<Section>, maxLines: int) returns (result: seq<Section>)
    ensures result == Fitted(sections, maxLines)
  {
    hide FitFrom, SectionCost;
    var total := 1;
    for i := 0 to |sections|
      invariant total == 1 + SumCosts(sections[..i])
    {
      SumCostsSnoc(sections, i);
      total := total + SectionCost(sections[i]);
    }
    assert sections[..|sections|] == sections;
    if total <= maxLines || |sections| == 0 {
      return sections;
    }
    var n := |sections| - 1;
    assert sections[..n] + [sections[n]] == sections;
    var out := new Section[|sections|](i requires 0 <= i < |sections| => sections[i]);
    assert out[..] == sections;
    CutAll(out, n, maxLines - 1 - SectionCost(out[n]));
    assert out[..] == out[..n] + [out[n]];
    return out[..];
  }

  method CutAll(out: array<Section>, n: nat, budget: int)
    requires n <= out.Length
    modifies out
    ensures out[..n] == FitFrom(old(out[..n]), budget)
    ensures out[n..] == old(out[n..])
  {
    hide CutFirst, LeftAfter, SumHeads, Head, FitFrom;
    ghost var front, done: seq<Section> := out[..n], [];
    var left := budget;
    assert front[0..] == front && done + FitFrom(front, left) == FitFrom(front, left);
    for i := 0 to n
      invariant out[..i] == done && out[i..] == old(out[i..])
      invariant done + FitFrom(front[i..], left) == FitFrom(front, budget)
    {
      assert out[i] == out[i..][0] == front[i];
      ghost var tail := out[i + 1..];
      assert tail == out[i..][1..] == old(out[i..])[1..] == old(out[i + 1..]);
      assert out[i + 1..n] == tail[..n - i - 1] == front[i + 1..];
      var reserve := Reserve(out, i + 1, n);
      FitStep(front, i, left, done);
      done := done + [CutFirst(out[i], reserve, left)];
      left := CutSection(out, i, reserve, left);
      assert out[..i + 1] == out[..i] + [out[i]];
    }
    assert front[n..] == [] && done + FitFrom([], left) == done by {
      NothingToFit(left);
    }
  }

  // The first of the sections still to cut, moved to those done.
  lemma FitStep(front: seq<Section>, i: nat, left: int, done: seq<Section>)
    requires i < |front|
    ensures var reserve := SumHeads(front[i + 1..]);
      (done + [CutFirst(front[i], reserve, left)]) + FitFrom(front[i + 1..], LeftAfter(front[i], reserve, left)) ==
        done + FitFrom(front[i..], left)
  {
    hide CutFirst, LeftAfter, SumHeads;
    assert front[i..][1..] == front[i + 1..];
  }

  lemma NothingToFit(left: int)
    ensures FitFrom([], left) == []
  {
  }

  method CutSection(out: array<Section>, i: nat, reserve: nat, left: int) returns (after: int)
    requires i < out.Length
    modifies out
    ensures out[i] == CutFirst(old(out[i]), reserve, left) && after == LeftAfter(old(out[i]), reserve, left)
    ensures out[..i] == old(out[..i]) && out[i + 1..] == old(out[i + 1..])
  {
    var cost := SectionCost(out[i]);
    if cost <= left - reserve {
      return left - cost;
    }
    var head := Head(out[i]); // with the marker line
    var keep := left - reserve - head;
    if keep < 0 {
      keep := 0;
    }
    if keep < |out[i].lines| {
      out[i] := out[i].(truncated := |out[i].lines| - keep, lines := out[i].lines[..keep]);
    }
    return left - (head + |out[i].lines|);
  }

  // The headings, notes and markers of the sections lo..hi still to come.
  method Reserve(out: array<Section>, lo: nat, hi: nat) returns (reserve: nat)
    requires lo <= hi <= out.Length
    ensures reserve == SumHeads(out[lo..hi])
  {
    reserve := 0;
    for j := lo to hi
      invariant reserve == SumHeads(out[lo..j])
    {
      SumHeadsSnoc(out[lo..j], out[j]);
      assert out[lo..j + 1] == out[lo..j] + [out[j]];
      reserve := reserve + Head(out[j]);
    }
  }

  lemma {:induction false} SumHeadsSnoc(ss: seq<Section>, s: Section)
    ensures SumHeads(ss + [s]) == SumHeads(ss) + Head(s)
  {
    if ss != [] {
      SumHeadsSnoc(ss[1..], s);
      assert (ss + [s])[1..] == ss[1..] + [s];
    } else {
      assert (ss + [s])[1..] == [];
    }
  }

  lemma SumCostsSnoc(sections: seq<Section>, i: nat)
    requires i < |sections|
    ensures SumCosts(sections[..i + 1]) == SumCosts(sections[..i]) + SectionCost(sections[i])
  {
    SumCostsAppend(sections[..i], sections[i]);
    assert sections[..i + 1] == sections[..i] + [sections[i]];
  }

  lemma {:induction false} SumCostsAppend(ss: seq<Section>, s: Section)
    ensures SumCosts(ss + [s]) == SumCosts(ss) + SectionCost(s)
  {
    if ss != [] {
      SumCostsAppend(ss[1..], s);
      assert (ss + [s])[1..] == ss[1..] + [s];
    } else {
      assert (ss + [s])[1..] == [];
    }
  }

  // Sections as they are built: nothing cut yet.
  ghost predicate Uncut(ss: seq<Section>) {
    forall i :: 0 <= i < |ss| ==> ss[i].truncated == 0
  }

  // The least any cut can render of a section: its lines replaced by one marker.
  function Least(s: Section): nat { 2 + NoteLines(s) + if s.lines == [] then 0 else 1 }

  function SumLeast(ss: seq<Section>): nat {
    if ss == [] then 0 else Least(ss[0]) + SumLeast(ss[1..])
  }

  // out is a cut of s: a prefix of its lines, the rest counted, everything else kept.
  ghost predicate CutOf(out: Section, s: Section) {
    && out == s.(lines := out.lines, truncated := out.truncated)
    && out.lines <= s.lines
    && (if out.lines == s.lines then out.truncated == s.truncated else out.truncated == |s.lines| - |out.lines|)
  }

  lemma {:induction false} FitFromCuts(ss: seq<Section>, left: int)
    ensures forall i :: 0 <= i < |ss| ==> CutOf(FitFrom(ss, left)[i], ss[i])
  {
    if ss != [] {
      var reserve := SumHeads(ss[1..]);
      FirstIsCut(ss[0], reserve, left);
      FitFromCuts(ss[1..], LeftAfter(ss[0], reserve, left));
    }
  }

  lemma FirstIsCut(s: Section, reserve: nat, left: int)
    ensures CutOf(CutFirst(s, reserve, left), s)
  {
  }

  lemma {:induction false} TextLength(ss: seq<Section>)
    ensures Uncut(ss) ==> |TextOf(ss)| == SumCosts(ss)
  {
    if ss != [] {
      TextLength(ss[1..]);
    }
  }

  lemma {:induction false} TextSnoc(ss: seq<Section>, s: Section)
    ensures |TextOf(ss + [s])| == |TextOf(ss)| + |SectionText(s)|
  {
    if ss != [] {
      TextSnoc(ss[1..], s);
      assert (ss + [s])[1..] == ss[1..] + [s];
    } else {
      assert (ss + [s])[1..] == [];
    }
  }

  // What one step renders, against the lines it is charged.
  lemma StepCharges(s: Section, reserve: nat, left: int)
    requires s.truncated == 0
    ensures var cut, after := CutFirst(s, reserve, left), LeftAfter(s, reserve, left);
      && Least(s) <= |SectionText(cut)| <= left - after
      && (Head(s) + reserve <= left ==> after >= reserve && (cut != s ==> |cut.lines| + 2 <= |s.lines|))
      && (after >= reserve || |SectionText(cut)| == Least(s))
  {
  }

  // With room for every heading and marker, the cut stays within what is left.
  lemma {:induction false} CoveredFits(ss: seq<Section>, left: int)
    requires Uncut(ss) && SumHeads(ss) <= left
    ensures |TextOf(FitFrom(ss, left))| <= left
    ensures forall i :: 0 <= i < |ss| && FitFrom(ss, left)[i] != ss[i] ==>
      |FitFrom(ss, left)[i].lines| + 2 <= |ss[i].lines|
  {
    hide CutFirst, LeftAfter, Head, Least, SectionText;
    if ss != [] {
      var reserve := SumHeads(ss[1..]);
      var first, after := CutFirst(ss[0], reserve, left), LeftAfter(ss[0], reserve, left);
      StepCharges(ss[0], reserve, left);
      CoveredFits(ss[1..], after);
      var out := FitFrom(ss, left);
      assert out[1..] == FitFrom(ss[1..], after);
      forall i | 0 < i < |ss| && out[i] != ss[i]
        ensures |out[i].lines| + 2 <= |ss[i].lines|
      {
        assert out[i] == FitFrom(ss[1..], after)[i - 1] && ss[i] == ss[1..][i - 1];
      }
    }
  }

  // Without that room, either it fits all the same or nothing but the least is rendered.
  lemma {:induction false} UncoveredFits(ss: seq<Section>, left: int)
    requires Uncut(ss)
    ensures var n := |TextOf(FitFrom(ss, left))|; n <= left || n == SumLeast(ss)
    ensures |TextOf(FitFrom(ss, left))| >= SumLeast(ss)
  {
    hide CutFirst, LeftAfter, Head, Least, SectionText;
    if ss != [] {
      var reserve := SumHeads(ss[1..]);
      var after := LeftAfter(ss[0], reserve, left);
      StepCharges(ss[0], reserve, left);
      UncoveredFits(ss[1..], after);
      if after >= reserve {
        CoveredFits(ss[1..], after);
      }
      assert FitFrom(ss, left)[1..] == FitFrom(ss[1..], after);
    }
  }

  lemma {:induction false} CostsAreLeast(ss: seq<Section>)
    ensures SumLeast(ss) <= SumCosts(ss)
  {
    if ss != [] {
      CostsAreLeast(ss[1..]);
    }
  }

  lemma UncutParts(sections: seq<Section>)
    requires Uncut(sections) && sections != []
    ensures Uncut(sections[..|sections| - 1]) && sections[|sections| - 1].truncated == 0
  {
  }

  lemma LastCosts(s: Section)
    requires s.truncated == 0
    ensures |SectionText(s)| == SectionCost(s)
  {
  }

  /** The brief stays within the budget exactly when any cut could: when header, last section
      and the least of every other section fit. */
  lemma {:induction false} FitsExactlyWhenPossible(header: string, sections: seq<Section>, maxLines: int)
    requires Uncut(sections) && sections != []
    ensures var n := |sections| - 1;
      |Text(header, Fitted(sections, maxLines))| <= maxLines <==>
        1 + SectionCost(sections[n]) + SumLeast(sections[..n]) <= maxLines
  {
    hide FitFrom, SectionText, TextOf, SumCosts, SumLeast, Uncut;
    var n := |sections| - 1;
    var front, last := sections[..n], sections[n];
    assert sections == front + [last];
    assert Uncut(front) && last.truncated == 0 && Uncut(sections) by {
      UncutParts(sections);
    }
    SumCostsAppend(front, last);
    TextLength(sections);
    CostsAreLeast(front);
    var left := maxLines - 1 - SectionCost(last);
    UncoveredFits(front, left);
    TextSnoc(FitFrom(front, left), last);
    LastCosts(last);
  }

  /** Every section is cut to a prefix of its lines with the rest counted, the last one not at
      all; and when every heading and marker has room, a cut drops at least two lines. */
  lemma {:induction false} CutsAreHonest(sections: seq<Section>, maxLines: int)
    requires Uncut(sections) && sections != []
    ensures var out := Fitted(sections, maxLines); var n := |sections| - 1;
      && |out| == |sections|
      && (forall i :: 0 <= i < |sections| ==> CutOf(out[i], sections[i]))
      && out[n] == sections[n]
      && (1 + SectionCost(sections[n]) + SumHeads(sections[..n]) <= maxLines ==>
        forall i :: 0 <= i < |sections| && out[i] != sections[i] ==> |out[i].lines| + 2 <= |sections[i].lines|)
  {
    hide FitFrom, SumHeads, SumCosts, SectionCost, CutOf;
    var n := |sections| - 1;
    var front, last := sections[..n], sections[n];
    var left := maxLines - 1 - SectionCost(last);
    FitFromCuts(front, left);
    forall i | 0 <= i < |sections|
      ensures CutOf(sections[i], sections[i])
    {
      WholeIsCut(sections[i]);
    }
    if SumHeads(front) <= left {
      UncutParts(sections);
      CoveredFits(front, left);
    }
  }

  lemma WholeIsCut(s: Section)
    ensures CutOf(s, s)
  {
  }

  // What the i-th section finds: the room behind those before it, less the headings, notes and markers
  // of those after it.
  ghost function Room(ss: seq<Section>, out: seq<Section>, i: nat, left: int): int
    requires i < |ss| == |out|
  {
    left - |TextOf(out[..i])| - SumHeads(ss[i + 1..])
  }

  // The i-th section is left whole if it has the room, and otherwise fills it to the last line.
  ghost predicate Filled(ss: seq<Section>, out: seq<Section>, i: nat, left: int)
    requires i < |ss| == |out|
  {
    var room := Room(ss, out, i, left);
    && (out[i] == ss[i] <==> SectionCost(ss[i]) <= room)
    && (out[i] != ss[i] ==> |SectionText(out[i])| == room)
  }

  // A step is charged what it renders, and what it cannot keep whole it fills up.
  lemma StepFills(s: Section, reserve: nat, left: int)
    requires s.truncated == 0 && Head(s) + reserve <= left
    ensures var cut, after := CutFirst(s, reserve, left), LeftAfter(s, reserve, left);
      && after == left - |SectionText(cut)| && after >= reserve
      && (cut == s <==> SectionCost(s) <= left - reserve)
      && (cut != s ==> after == reserve)
  {
  }

  lemma FilledBehind(ss: seq<Section>, out: seq<Section>, i: nat, left: int)
    requires 0 < i < |ss| == |out| && Filled(ss[1..], out[1..], i - 1, left - |SectionText(out[0])|)
    ensures Filled(ss, out, i, left)
  {
    hide SectionText, SectionCost, SumHeads;
    assert out[..i][1..] == out[1..][..i - 1] && out[..i][0] == out[0];
    assert ss[1..][i..] == ss[i + 1..] && ss[1..][i - 1] == ss[i] && out[1..][i - 1] == out[i];
  }

  lemma {:induction false} CoveredFills(ss: seq<Section>, left: int)
    requires Uncut(ss) && SumHeads(ss) <= left
    ensures forall i :: 0 <= i < |ss| ==> Filled(ss, FitFrom(ss, left), i, left)
  {
    if ss != [] {
      var reserve := SumHeads(ss[1..]);
      StepFills(ss[0], reserve, left);
      CoveredFills(ss[1..], LeftAfter(ss[0], reserve, left));
      var out := FitFrom(ss, left);
      hide CutFirst, LeftAfter, SectionText, SectionCost, Head;
      assert out[1..] == FitFrom(ss[1..], LeftAfter(ss[0], reserve, left));
      forall i | 0 <= i < |ss|
        ensures Filled(ss, out, i, left)
      {
        if i > 0 {
          FilledBehind(ss, out, i, left);
        } else {
          assert out[..0] == [];
        }
      }
    }
  }

  // Without the room for every heading and marker, sections are cut to nothing.
  lemma {:induction false} UncoveredEmpties(ss: seq<Section>, left: int, i: nat)
    requires SumHeads(ss) > left && i < |ss| && forall k :: 0 <= k <= i ==> ss[k].lines != []
    ensures FitFrom(ss, left)[i].lines == []
  {
    var reserve := SumHeads(ss[1..]);
    assert ss[0].lines != [];
    if i > 0 {
      assert forall k :: 0 <= k <= i - 1 ==> ss[1..][k] == ss[k + 1];
      UncoveredEmpties(ss[1..], LeftAfter(ss[0], reserve, left), i - 1);
    }
  }

  /** A cut keeps all it can: a brief within the budget is left alone; of one that is too long, with room
      for every heading and marker, each section before the last is left whole exactly when that leaves
      the later headings their room, and otherwise fills what there is to the last line. Without that
      room every section is cut to nothing, up to one that has no lines. */
  lemma NoMoreCouldBeKept(sections: seq<Section>, maxLines: int)
    requires Uncut(sections) && sections != []
    ensures 1 + SumCosts(sections) <= maxLines ==> Fitted(sections, maxLines) == sections
    ensures 1 + SumCosts(sections) > maxLines ==>
      var out, n := Fitted(sections, maxLines), |sections| - 1;
      var left := maxLines - 1 - SectionCost(sections[n]);
      && (SumHeads(sections[..n]) <= left ==>
            forall i :: 0 <= i < n ==> Filled(sections[..n], out[..n], i, left))
      && (SumHeads(sections[..n]) > left ==>
            forall i :: 0 <= i < n && (forall k :: 0 <= k <= i ==> sections[k].lines != []) ==> out[i].lines == [])
  {
    if 1 + SumCosts(sections) > maxLines {
      TooLongIsFilled(sections, maxLines);
    }
  }

  lemma TooLongIsFilled(sections: seq<Section>, maxLines: int)
    requires Uncut(sections) && sections != [] && 1 + SumCosts(sections) > maxLines
    ensures var out, n := Fitted(sections, maxLines), |sections| - 1;
      var left := maxLines - 1 - SectionCost(sections[n]);
      && (SumHeads(sections[..n]) <= left ==>
            forall i :: 0 <= i < n ==> Filled(sections[..n], out[..n], i, left))
      && (SumHeads(sections[..n]) > left ==>
            forall i :: 0 <= i < n && (forall k :: 0 <= k <= i ==> sections[k].lines != []) ==> out[i].lines == [])
  {
    hide FitFrom, SumCosts, SumHeads, Filled;
    var out, n := Fitted(sections, maxLines), |sections| - 1;
    var front, left := sections[..n], maxLines - 1 - SectionCost(sections[n]);
    assert out[..n] == FitFrom(front, left);
    if SumHeads(front) <= left {
      CoveredFills(front, left);
    } else {
      forall i | 0 <= i < n && (forall k :: 0 <= k <= i ==> sections[k].lines != [])
        ensures out[i].lines == []
      {
        assert forall k :: 0 <= k <= i ==> front[k] == sections[k];
        UncoveredEmpties(front, left, i);
        assert out[i] == out[..n][i];
      }
    }
  }
}
