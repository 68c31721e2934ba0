/** What a conflict looks like in the merged text: both sides in one block, every entry of either side
    written out, and when a reader can tell the two halves apart again. */
module ChangelogConflicts {
  import opened ChangelogAlign
  import opened ChangelogAnalyse
  import opened ChangelogLaws
  import opened ChangelogMerge
  import opened ChangelogSection
  import opened GoText

  const OURS_MARK := "<<<<<<< ours\n"
  const MIDDLE_MARK := "=======\n"
  const THEIRS_MARK := ">>>>>>> theirs"

  // The two sides of a conflict; a side that removed the entry has none.
  function OursOf(it: Item): Option<string> {
    match it
    case ChangedRemoved(ours) => Some(ours)
    case ChangedBoth(ours, _) => Some(ours)
    case _ => None
  }

  function TheirsOf(it: Item): Option<string> {
    match it
    case RemovedChanged(_, theirs) => Some(theirs)
    case ChangedBoth(_, theirs) => Some(theirs)
    case _ => None
  }

  function Half(side: Option<string>): string {
    if side.None? then "" else TrimRightNewlines(side.value) + "\n"
  }

  function Block(ours: string, theirs: string): string {
    OURS_MARK + ours + MIDDLE_MARK + theirs + THEIRS_MARK
  }

  /** A conflict is written as one block, ours' text before the middle line and theirs' behind it; a half
      is empty exactly when its side has no text, and no other text is in it. */
  lemma BlocksHoldBothSides(it: Item)
    requires !it.Plain?
    ensures Render(it) == Block(Half(OursOf(it)), Half(TheirsOf(it)))
    ensures Half(OursOf(it)) == "" <==> OursOf(it).None?
    ensures Half(TheirsOf(it)) == "" <==> TheirsOf(it).None?
    ensures forall text :: Carries(it, text) <==> OursOf(it) == Some(text) || TheirsOf(it) == Some(text)
  {
  }

  /** So is a clash of two blocks of lines, with one more line break. */
  lemma ClashesHoldBothSides(base: seq<string>, ours: seq<string>, theirs: seq<string>)
    requires PreClash(base, ours, theirs)
    ensures BlockMerged(base, ours, theirs) == [Block(Half(Some(Flat(ours))), Half(Some(Flat(theirs)))) + "\n"]
  {
  }

  // The text is on the list, alone or as one half of a conflict.
  ghost predicate IsWritten(out: seq<string>, text: string) {
    exists k :: 0 <= k < |out| && Writes(out[k], text)
  }

  ghost predicate Writes(s: string, text: string) {
    || s == text
    || (exists other :: s == Block(Half(Some(text)), other))
    || (exists other :: s == Block(other, Half(Some(text))))
  }

  lemma RendersWhatItCarries(it: Item, text: string)
    requires Carries(it, text)
    ensures Writes(Render(it), text)
  {
    hide Block, Half, ConflictBlock;
    if !it.Plain? {
      BlocksHoldBothSides(it);
      hide Render;
    }
  }

  lemma ShownIsWritten(items: seq<Item>, text: string)
    ensures Shown(items, text) ==> IsWritten(RenderAll(items), text)
  {
    hide Writes, Render, Carries;
    if it :| it in items && Carries(it, text) {
      var k :| 0 <= k < |items| && items[k] == it;
      RendersWhatItCarries(it, text);
      assert Writes(RenderAll(items)[k], text);
    }
  }

  /** Each entry of either side is in the merged text, alone or as its half of a conflict, unless it is
      an untouched base entry that the other side removed or rewrote. */
  lemma EveryEntryIsWritten(sim: Measure, base: seq<string>, ours: seq<string>, theirs: seq<string>)
    requires PositiveOnText(sim)
    ensures var out := RenderAll(Merged(sim, base, ours, theirs));
      var ob, th := Analysis(sim, base, ours), Analysis(sim, base, theirs);
      && (forall j :: 0 <= j < |ours| ==>
           IsWritten(out, ours[j]) || exists bi :: UntouchedEntry(ob, j, bi) && !FateOf(th, bi).Kept?)
      && (forall j :: 0 <= j < |theirs| ==>
           IsWritten(out, theirs[j]) || exists bi :: UntouchedEntry(th, j, bi) && !FateOf(ob, bi).Kept?)
  {
    hide Merged, Analysis, UntouchedEntry, FateOf, RenderAll, IsWritten, Shown;
    NothingDroppedSilently(sim, base, ours, theirs);
    forall text
      ensures Shown(Merged(sim, base, ours, theirs), text) ==>
        IsWritten(RenderAll(Merged(sim, base, ours, theirs)), text)
    {
      ShownIsWritten(Merged(sim, base, ours, theirs), text);
    }
  }

  // The text before the first place the mark stands, and what is behind it.
  function Until(s: string, mark: string): string {
    if s == "" || mark <= s then "" else [s[0]] + Until(s[1..], mark)
  }

  predicate At(s: string, mark: string, k: int) { 0 <= k <= |s| - |mark| && s[k..k + |mark|] == mark }

  ghost predicate StandsIn(s: string, mark: string) { exists k :: At(s, mark, k) }

  // A middle line is a line of its own.
  const MIDDLE_LINE := "\n" + MIDDLE_MARK

  lemma {:induction false} UntilFirst(s: string, mark: string, k: nat)
    requires At(s, mark, k) && forall j :: 0 <= j < k ==> !At(s, mark, j)
    ensures Until(s, mark) == s[..k]
  {
    if k > 0 {
      assert !At(s, mark, 0);
      forall j
        ensures At(s[1..], mark, j) <==> j >= 0 && At(s, mark, j + 1)
      {
        Shifted(s, mark, j);
      }
      UntilFirst(s[1..], mark, k - 1);
    }
  }

  lemma {:induction false} UntilNoLater(s: string, mark: string, k: nat)
    requires At(s, mark, k)
    ensures |Until(s, mark)| <= k
  {
    if k > 0 && s != "" && !(mark <= s) {
      Shifted(s, mark, k - 1);
      UntilNoLater(s[1..], mark, k - 1);
    }
  }

  lemma Shifted(s: string, mark: string, j: int)
    requires s != ""
    ensures At(s[1..], mark, j) <==> j >= 0 && At(s, mark, j + 1)
  {
    if 0 <= j <= |s| - 1 - |mark| {
      assert s[1..][j..j + |mark|] == s[j + 1..j + 1 + |mark|];
    }
  }

  // The first half, with the line break that opens the middle line.
  lemma HeadOf(ours: string, theirs: string)
    requires ours == "" || ours[|ours| - 1] == '\n'
    ensures var s, k := Block(ours, theirs), |OURS_MARK + ours| - 1;
      && At(s, MIDDLE_LINE, k) && s[..k] + "\n" == OURS_MARK + ours
      && s[k + 1..] == MIDDLE_MARK + theirs + THEIRS_MARK
  {
    var s, head := Block(ours, theirs), OURS_MARK + ours;
    assert s == head + (MIDDLE_MARK + theirs + THEIRS_MARK);
    assert head[|head| - 1] == '\n';
  }

  // The line breaks of a middle line are its two ends.
  lemma NextBreak(s: string, j: int, k: int)
    requires At(s, MIDDLE_LINE, j) && j < k < |s| && s[k] == '\n'
    ensures j + 8 <= k
  {
    var line := s[j..j + 9];
    assert line == MIDDLE_LINE && MIDDLE_LINE == ['\n', '=', '=', '=', '=', '=', '=', '=', '\n'];
    assert forall d :: 1 <= d < 8 ==> line[d] == '=';
    assert k < j + 9 ==> s[k] == line[k - j];
  }

  lemma FirstBreak(s: string, j: int)
    requires OURS_MARK <= s && At(s, MIDDLE_LINE, j)
    ensures j >= 12
  {
    assert OURS_MARK[..12] == "<<<<<<< ours" && s[..13] == OURS_MARK && s[j] == s[j..j + 9][0] == '\n';
    assert forall i :: 0 <= i < 12 ==> s[i] == "<<<<<<< ours"[i] != '\n';
  }

  // A middle line before that place is one of ours' text.
  lemma EarlierIsOurs(ours: string, theirs: string, j: int)
    requires ours == "" || ours[|ours| - 1] == '\n'
    requires At(Block(ours, theirs), MIDDLE_LINE, j) && j < |OURS_MARK + ours| - 1
    ensures At("\n" + ours, MIDDLE_LINE, j - 12)
  {
    var s, head := Block(ours, theirs), OURS_MARK + ours;
    var k := |head| - 1;
    assert s == head + (MIDDLE_MARK + theirs + THEIRS_MARK);
    assert s[k] == head[k] == '\n' && |OURS_MARK| == 13;
    FirstBreak(s, j);
    NextBreak(s, j, k);
    assert ("\n" + ours)[j - 12..j - 3] == head[j..j + 9] == s[j..j + 9];
  }

  lemma OursIsEarlier(ours: string, theirs: string, i: int)
    requires At("\n" + ours, MIDDLE_LINE, i)
    ensures At(Block(ours, theirs), MIDDLE_LINE, i + 12) && i + 12 < |OURS_MARK + ours| - 1
  {
    var s, head := Block(ours, theirs), OURS_MARK + ours;
    assert s[..|head|] == head && |OURS_MARK| == 13;
    assert s[i + 12..i + 21] == head[i + 12..i + 21] == ("\n" + ours)[i..i + 9];
  }

  /** A reader who takes ours' half up to the first middle line, and theirs' behind it, gets both back
      exactly when no line of ours' half is itself a middle line. */
  lemma HalvesReadBack(ours: string, theirs: string)
    requires ours == "" || ours[|ours| - 1] == '\n'
    ensures var s := Block(ours, theirs); var head := Until(s, MIDDLE_LINE) + "\n";
      head == OURS_MARK + ours && |head| <= |s| && s[|head|..] == MIDDLE_MARK + theirs + THEIRS_MARK <==>
        !StandsIn("\n" + ours, MIDDLE_LINE)
  {
    hide At, Block, Until;
    var s, k := Block(ours, theirs), |OURS_MARK + ours| - 1;
    HeadOf(ours, theirs);
    if i :| At("\n" + ours, MIDDLE_LINE, i) {
      OursIsEarlier(ours, theirs, i);
      AtIsInside("\n" + ours, MIDDLE_LINE, i);
      UntilNoLater(s, MIDDLE_LINE, i + 12);
    } else {
      forall j | 0 <= j < k
        ensures !At(s, MIDDLE_LINE, j)
      {
        if At(s, MIDDLE_LINE, j) {
          EarlierIsOurs(ours, theirs, j);
        }
      }
      UntilFirst(s, MIDDLE_LINE, k);
      AtIsInside(s, MIDDLE_LINE, k);
    }
  }

  lemma AtIsInside(s: string, mark: string, k: int)
    requires At(s, mark, k)
    ensures 0 <= k <= |s| - |mark|
  {
  }

  // How many of the items are conflicts.
  function Conflicts(items: seq<Item>): nat {
    if items == [] then 0 else Conflicts(items[..|items| - 1]) + if items[|items| - 1].Plain? then 0 else 1
  }

  /** There is one note for each conflict, under the section's heading, and no other. */
  lemma {:induction false} NotesAreTheConflicts(items: seq<Item>, heading: string)
    ensures |NotesOf(items, heading)| == Conflicts(items)
    ensures forall note ::
      note in NotesOf(items, heading) <==>
        note.Note? && note.heading == heading && !note.clash.Plain? && note.clash in items
  {
    if items != [] {
      var n := |items| - 1;
      NotesAreTheConflicts(items[..n], heading);
      assert items == items[..n] + [items[n]];
    }
  }

  /** A subsection that has entries sets them off from its preamble by a blank line, adding one only where
      there is none; without entries the preamble stays as merged. */
  lemma PreambleIsSetOff(lines: seq<string>, needed: bool)
    ensures var out := EnsureBlank(lines, needed);
      && lines <= out <= lines + ["\n"]
      && (needed ==> out != [] && TrimSpace(out[|out| - 1]) == "")
      && (out != lines ==> needed && (lines == [] || TrimSpace(lines[|lines| - 1]) != ""))
  {
  }
}
