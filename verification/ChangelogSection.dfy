/** Subsections of the unreleased section: splitting their lines into entries, merging preambles as
    blocks, and the three-way laws of a whole subsection. A line ends with its newline. */
module ChangelogSection {
  import opened ChangelogAlign
  import opened ChangelogLaws
  import opened ChangelogMerge
  import GoText

  predicate IsEntryStart(line: string) { line == "-\n" || "- " <= line }

  function Flat(lines: seq<string>): string {
    if lines == [] then "" else Flat(lines[..|lines| - 1]) + lines[|lines| - 1]
  }

  function JoinEntry(lines: seq<string>): string { TrimRightNewlines(Flat(lines)) }

  // The lines before the first entry, and the lines of each entry.
  datatype Parts = Parts(pre: seq<string>, blocks: seq<seq<string>>)

  // One more line: an entry starts, or the last one or the preamble goes on.
  function Extend(p: Parts, line: string): Parts {
    if IsEntryStart(line) then p.(blocks := p.blocks + [[line]])
    else if p.blocks == [] then p.(pre := p.pre + [line])
    else p.(blocks := p.blocks[..|p.blocks| - 1] + [p.blocks[|p.blocks| - 1] + [line]])
  }

  function Split(lines: seq<string>): Parts {
    if lines == [] then Parts([], []) else Extend(Split(lines[..|lines| - 1]), lines[|lines| - 1])
  }

  function Entries(p: Parts): (entries: seq<string>)
    ensures |entries| == |p.blocks|
    ensures forall i :: 0 <= i < |entries| ==> entries[i] == JoinEntry(p.blocks[i])
  {
    seq(|p.blocks|, i requires 0 <= i < |p.blocks| => JoinEntry(p.blocks[i]))
  }

  method SplitEntries(lines: seq<string>) returns (pre: seq<string>, entries: seq<string>)
    ensures pre == Split(lines).pre && entries == Entries(Split(lines))
  {
    hide JoinEntry, IsEntryStart;
    pre, entries := [], [];
    var cur: GoText.Option<seq<string>> := GoText.None;
    for k := 0 to |lines|
      invariant Holds(Split(lines[..k]), pre, entries, cur)
    {
      assert lines[..k + 1][..k] == lines[..k];
      var line := lines[k];
      HoldsNext(Split(lines[..k]), pre, entries, cur, line);
      if IsEntryStart(line) {
        if cur.Some? {
          entries := entries + [JoinEntry(cur.value)];
        }
        cur := GoText.Some([line]);
      } else if cur.None? {
        pre := pre + [line];
      } else {
        cur := GoText.Some(cur.value + [line]);
      }
    }
    assert lines[..|lines|] == lines;
    if cur.Some? {
      entries := entries + [JoinEntry(cur.value)];
    }
  }

  // What the loop holds after some lines: the last entry is still open.
  ghost predicate Holds(p: Parts, pre: seq<string>, entries: seq<string>, cur: GoText.Option<seq<string>>) {
    && pre == p.pre
    && (if cur.None? then p.blocks == [] && entries == []
        else p.blocks != [] && cur.value == p.blocks[|p.blocks| - 1] && entries == Entries(p)[..|p.blocks| - 1])
  }

  lemma HoldsNext(p: Parts, pre: seq<string>, entries: seq<string>, cur: GoText.Option<seq<string>>, line: string)
    requires Holds(p, pre, entries, cur)
    ensures IsEntryStart(line) ==>
      Holds(Extend(p, line), pre, if cur.Some? then entries + [JoinEntry(cur.value)] else entries, GoText.Some([line]))
    ensures !IsEntryStart(line) && cur.None? ==> Holds(Extend(p, line), pre + [line], entries, cur)
    ensures !IsEntryStart(line) && cur.Some? ==> Holds(Extend(p, line), pre, entries, GoText.Some(cur.value + [line]))
  {
    hide JoinEntry, IsEntryStart;
    var q, n := Extend(p, line), |p.blocks| - 1;
    if cur.Some? {
      assert IsEntryStart(line) ==> Entries(q)[..n + 1] == Entries(p)[..n] + [JoinEntry(p.blocks[n])];
      assert !IsEntryStart(line) ==> Entries(q)[..n] == Entries(p)[..n];
    }
  }

  function Concat(blocks: seq<seq<string>>): seq<string> {
    if blocks == [] then [] else Concat(blocks[..|blocks| - 1]) + blocks[|blocks| - 1]
  }

  ghost predicate IsBlock(b: seq<string>) {
    b != [] && IsEntryStart(b[0]) && forall k :: 1 <= k < |b| ==> !IsEntryStart(b[k])
  }

  ghost predicate Formed(p: Parts) {
    && (forall k :: 0 <= k < |p.pre| ==> !IsEntryStart(p.pre[k]))
    && (forall k :: 0 <= k < |p.blocks| ==> IsBlock(p.blocks[k]))
  }

  /** Splitting is the one way to cut the lines into a preamble without entry starts and blocks that
      start, and only start, with one. */
  lemma {:induction false} SplitIsThePartition(lines: seq<string>, p: Parts)
    ensures p == Split(lines) <==> Formed(p) && p.pre + Concat(p.blocks) == lines
  {
    SplitForms(lines);
    if Formed(p) && p.pre + Concat(p.blocks) == lines {
      FormedIsSplit(p);
    }
  }

  lemma {:induction false} SplitForms(lines: seq<string>)
    ensures Formed(Split(lines)) && Split(lines).pre + Concat(Split(lines).blocks) == lines
  {
    hide Formed, Extend;
    if lines != [] {
      var front, line := lines[..|lines| - 1], lines[|lines| - 1];
      SplitForms(front);
      ExtendForms(Split(front), line);
      assert lines == front + [line];
    } else {
      assert Formed(Parts([], [])) by {
        EmptyIsFormed();
      }
    }
  }

  lemma EmptyIsFormed()
    ensures Formed(Parts([], []))
  {
  }

  lemma ExtendForms(p: Parts, line: string)
    requires Formed(p)
    ensures var q := Extend(p, line); Formed(q) && q.pre + Concat(q.blocks) == p.pre + Concat(p.blocks) + [line]
  {
    hide IsEntryStart;
    var q, n := Extend(p, line), |p.blocks| - 1;
    if IsEntryStart(line) {
      hide Formed;
      assert q.blocks[..n + 1] == p.blocks;
      assert Formed(q) by {
        StartForms(p, line);
      }
    } else if p.blocks != [] {
      hide Formed;
      var front, last := p.blocks[..n], p.blocks[n];
      assert q.blocks[..n] == front && front + [last] == p.blocks;
      assert Concat(q.blocks) == Concat(front) + (last + [line]);
      assert Concat(front) + (last + [line]) == (Concat(front) + last) + [line];
      assert Formed(q) by {
        ContinuationForms(p, line);
      }
    }
  }

  lemma StartForms(p: Parts, line: string)
    requires Formed(p) && IsEntryStart(line)
    ensures Formed(p.(blocks := p.blocks + [[line]]))
  {
  }

  lemma ContinuationForms(p: Parts, line: string)
    requires Formed(p) && !IsEntryStart(line) && p.blocks != []
    ensures Formed(p.(blocks := p.blocks[..|p.blocks| - 1] + [p.blocks[|p.blocks| - 1] + [line]]))
  {
    hide IsEntryStart;
    var last := p.blocks[|p.blocks| - 1];
    assert IsBlock(last);
    assert IsBlock(last + [line]);
  }

  lemma {:induction false} FormedIsSplit(p: Parts)
    requires Formed(p)
    ensures Split(p.pre + Concat(p.blocks)) == p
    decreases |p.pre + Concat(p.blocks)|
  {
    hide Formed, Extend;
    var lines := p.pre + Concat(p.blocks);
    if p.pre == [] && p.blocks == [] {
      assert lines == [];
    } else {
      var q, line := Shorter(p);
      FormedIsSplit(q);
      assert Split(lines) == Extend(Split(lines[..|lines| - 1]), lines[|lines| - 1]);
    }
  }

  // What the last line was added to.
  lemma Shorter(p: Parts) returns (q: Parts, line: string)
    requires Formed(p) && (p.pre != [] || p.blocks != [])
    ensures Formed(q) && Extend(q, line) == p && p.pre + Concat(p.blocks) == (q.pre + Concat(q.blocks)) + [line]
  {
    hide IsEntryStart;
    if p.blocks == [] {
      var n := |p.pre| - 1;
      q, line := Parts(p.pre[..n], []), p.pre[n];
      assert q.pre + [line] == p.pre;
    } else {
      var n := |p.blocks| - 1;
      var last := p.blocks[n];
      assert IsBlock(last);
      line := last[|last| - 1];
      if |last| == 1 {
        q := p.(blocks := p.blocks[..n]);
        assert last == [line] && q.blocks + [[line]] == p.blocks;
      } else {
        q := p.(blocks := p.blocks[..n] + [last[..|last| - 1]]);
        assert IsBlock(last[..|last| - 1]);
        assert q.blocks[..n] == p.blocks[..n] && last[..|last| - 1] + [line] == last;
        assert p.blocks[..n] + [last] == p.blocks;
      }
    }
  }

  // A subsection as lines again: its preamble, then one element for each entry.
  function Body(pre: seq<string>, entries: seq<string>): (lines: seq<string>)
    ensures |lines| == |pre| + |entries|
  {
    pre + seq(|entries|, i requires 0 <= i < |entries| => entries[i] + "\n")
  }

  ghost predicate Closed(e: string) { e == "" || e[|e| - 1] != '\n' }

  lemma {:induction false} TrimClosed(e: string)
    requires Closed(e)
    ensures TrimRightNewlines(e + "\n") == e
  {
    assert (e + "\n")[..|e|] == e;
  }

  lemma {:induction false} ConcatLength(blocks: seq<seq<string>>)
    requires forall k :: 0 <= k < |blocks| ==> blocks[k] != []
    ensures |Concat(blocks)| >= |blocks|
    ensures |Concat(blocks)| == |blocks| ==> forall k :: 0 <= k < |blocks| ==>
      |blocks[k]| == 1 && Concat(blocks)[k] == blocks[k][0]
  {
    if blocks != [] {
      ConcatLength(blocks[..|blocks| - 1]);
    }
  }

  lemma {:induction false} ConcatSingles(lines: seq<string>)
    ensures Concat(seq(|lines|, i requires 0 <= i < |lines| => [lines[i]])) == lines
  {
    if lines != [] {
      var front := lines[..|lines| - 1];
      ConcatSingles(front);
      var singles := seq(|lines|, i requires 0 <= i < |lines| => [lines[i]]);
      assert singles[..|lines| - 1] == seq(|front|, i requires 0 <= i < |front| => [front[i]]);
    }
  }

  /** Splitting a rendered subsection finds its preamble and entries again exactly when every entry
      still looks like one: it is a bare dash, or starts with a dash and a space. */
  lemma {:induction false} ResplitExactly(pre: seq<string>, entries: seq<string>)
    requires forall k :: 0 <= k < |pre| ==> !IsEntryStart(pre[k])
    requires forall k :: 0 <= k < |entries| ==> Closed(entries[k])
    ensures var again := Split(Body(pre, entries));
      again.pre == pre && Entries(again) == entries <==>
        forall k :: 0 <= k < |entries| ==> IsEntryStart(entries[k] + "\n")
  {
    hide Formed, Split, IsEntryStart, Entries;
    if forall k :: 0 <= k < |entries| ==> IsEntryStart(entries[k] + "\n") {
      StartsResplit(pre, entries);
    } else if Split(Body(pre, entries)).pre == pre && Entries(Split(Body(pre, entries))) == entries {
      ResplitStarts(pre, entries);
      assert false;
    }
  }

  lemma StartsResplit(pre: seq<string>, entries: seq<string>)
    requires forall k :: 0 <= k < |pre| ==> !IsEntryStart(pre[k])
    requires forall k :: 0 <= k < |entries| ==> Closed(entries[k]) && IsEntryStart(entries[k] + "\n")
    ensures Split(Body(pre, entries)).pre == pre && Entries(Split(Body(pre, entries))) == entries
  {
    hide Split, IsEntryStart;
    var tail := Body(pre, entries)[|pre|..];
    var p := Parts(pre, seq(|tail|, i requires 0 <= i < |tail| => [tail[i]]));
    ConcatSingles(tail);
    assert forall k :: 0 <= k < |p.blocks| ==> IsBlock(p.blocks[k]);
    FormedIsSplit(p);
    forall k | 0 <= k < |entries|
      ensures Entries(p)[k] == entries[k]
    {
      OneLineEntry(entries[k]);
    }
  }

  lemma OneLineEntry(e: string)
    requires Closed(e)
    ensures JoinEntry([e + "\n"]) == e
  {
    TrimClosed(e);
    var line := e + "\n";
    assert [line][..0] == [];
    assert Flat([line]) == "" + line == line;
  }

  lemma ResplitStarts(pre: seq<string>, entries: seq<string>)
    requires var again := Split(Body(pre, entries)); again.pre == pre && |again.blocks| == |entries|
    ensures forall k :: 0 <= k < |entries| ==> IsEntryStart(entries[k] + "\n")
  {
    hide Split, IsEntryStart;
    var body := Body(pre, entries);
    var again := Split(body);
    SplitForms(body);
    assert forall k :: 0 <= k < |again.blocks| ==> IsBlock(again.blocks[k]);
    ConcatLength(again.blocks);
    assert body[|pre|..] == Concat(again.blocks);
    forall k | 0 <= k < |entries|
      ensures IsEntryStart(entries[k] + "\n")
    {
      assert IsBlock(again.blocks[k]) && body[|pre|..][k] == entries[k] + "\n";
    }
  }

  // A bare dash followed by text on a later line.
  ghost predicate BareWithText(b: seq<string>) {
    b != [] && b[0] == "-\n" && exists k :: 0 <= k < |Flat(b[1..])| && Flat(b[1..])[k] != '\n'
  }

  lemma {:induction false} FlatCons(lines: seq<string>)
    requires lines != []
    ensures Flat(lines) == lines[0] + Flat(lines[1..])
  {
    var n := |lines| - 1;
    if n > 0 {
      FlatCons(lines[..n]);
      var rest := lines[1..];
      assert rest[..|rest| - 1] == lines[..n][1..];
      var mid := Flat(lines[..n][1..]);
      assert Flat(rest) == mid + lines[n];
      assert (lines[0] + mid) + lines[n] == lines[0] + (mid + lines[n]);
    } else {
      assert lines[..0] == [] && lines[1..] == [];
      assert "" + lines[0] == lines[0] + "";
    }
  }

  /** An entry cut from real lines looks like one afterwards exactly when it is not a bare dash with
      text on its later lines. */
  lemma EntryLooksLikeOne(b: seq<string>)
    requires IsBlock(b)
    ensures IsEntryStart(JoinEntry(b) + "\n") <==> !BareWithText(b)
  {
    FlatCons(b);
    var all, rest := Flat(b), Flat(b[1..]);
    var e := JoinEntry(b);
    assert all == b[0] + rest;
    if "- " <= b[0] {
      assert all[..2] == "- " && all[1] == ' ' && |e| >= 2;
      assert "- " <= e + "\n";
    } else if BareWithText(b) {
      var k :| 0 <= k < |rest| && rest[k] != '\n';
      assert all[k + 2] == rest[k] && |e| > k + 2;
      assert e[1] == '\n' && (e + "\n")[1] == '\n' && |e + "\n"| > 2;
    } else {
      assert forall k :: 2 <= k < |all| ==> all[k] == rest[k - 2] == '\n';
      assert all[0] == '-' && all[1] == '\n';
      assert e == "-";
    }
  }

  /** So a subsection can be rendered and split again without losing an entry exactly when none of
      its entries is a bare dash with text below it. */
  lemma RenderedSubsectionResplits(lines: seq<string>)
    ensures var p := Split(lines);
      var again := Split(Body(p.pre, Entries(p)));
      again.pre == p.pre && Entries(again) == Entries(p) <==>
        forall k :: 0 <= k < |p.blocks| ==> !BareWithText(p.blocks[k])
  {
    hide Split, Entries, Formed, Body, BareWithText, IsEntryStart, Closed;
    var p := Split(lines);
    SplitForms(lines);
    PreHoldsNoStart(p);
    EntriesAreClosed(p);
    ResplitExactly(p.pre, Entries(p));
    EntriesLookLikeOnes(p);
  }

  lemma PreHoldsNoStart(p: Parts)
    requires Formed(p)
    ensures forall k :: 0 <= k < |p.pre| ==> !IsEntryStart(p.pre[k])
  {
    hide IsEntryStart;
  }

  lemma EntriesAreClosed(p: Parts)
    ensures forall k :: 0 <= k < |Entries(p)| ==> Closed(Entries(p)[k])
  {
    hide Flat;
  }

  lemma EntriesLookLikeOnes(p: Parts)
    requires Formed(p)
    ensures (forall k :: 0 <= k < |Entries(p)| ==> IsEntryStart(Entries(p)[k] + "\n")) <==>
      (forall k :: 0 <= k < |p.blocks| ==> !BareWithText(p.blocks[k]))
  {
    hide IsEntryStart, BareWithText, JoinEntry, IsBlock;
    forall k | 0 <= k < |p.blocks|
      ensures IsEntryStart(Entries(p)[k] + "\n") <==> !BareWithText(p.blocks[k])
    {
      assert IsBlock(p.blocks[k]);
      EntryLooksLikeOne(p.blocks[k]);
    }
  }

  // Two blocks of lines with the same text.
  ghost predicate SameText(a: seq<string>, b: seq<string>) { Flat(a) == Flat(b) }

  // A block three-way: the changed side, or both in one conflict.
  function BlockMerged(base: seq<string>, ours: seq<string>, theirs: seq<string>): seq<string> {
    if Flat(ours) == Flat(theirs) then ours
    else if Flat(ours) == Flat(base) then theirs
    else if Flat(theirs) == Flat(base) then ours
    else [ConflictBlock(Flat(ours), Flat(theirs), true, true) + "\n"]
  }

  /** Any change on both sides is a conflict, and only that: with fewer, the text is the changed
      side's. */
  method MergeBlock(base: seq<string>, ours: seq<string>, theirs: seq<string>, what: string, st: MergeState)
    returns (out: seq<string>)
    modifies st
    ensures out == BlockMerged(base, ours, theirs)
    ensures var clash := !SameText(ours, theirs) && !SameText(ours, base) && !SameText(theirs, base);
      && st.conflict == (old(st.conflict) || clash)
      && st.notes == (if clash then old(st.notes) + [BlockNote(what)] else old(st.notes))
      && (!clash ==> SameText(out, ours) || SameText(out, theirs))
      && (!clash && !SameText(ours, base) ==> SameText(out, ours))
      && (!clash && !SameText(theirs, base) ==> SameText(out, theirs))
  {
    if Flat(ours) == Flat(theirs) {
      return ours;
    } else if Flat(ours) == Flat(base) {
      return theirs;
    } else if Flat(theirs) == Flat(base) {
      return ours;
    }
    st.Conflict(BlockNote(what));
    return [ConflictBlock(Flat(ours), Flat(theirs), true, true) + "\n"];
  }

  function EnsureBlank(lines: seq<string>, needed: bool): seq<string> {
    if !needed || (lines != [] && GoText.TrimSpace(lines[|lines| - 1]) == "") then lines else lines + ["\n"]
  }

  // The merge of one subsection, as the pieces it is made of.
  ghost function SubMerged(sim: Measure, base: seq<string>, ours: seq<string>, theirs: seq<string>)
    : (seq<string>, seq<Item>)
    requires PositiveOnText(sim)
  {
    var b, o, t := Split(base), Split(ours), Split(theirs);
    (EnsureBlank(BlockMerged(b.pre, o.pre, t.pre), o.blocks != [] || t.blocks != []),
     Merged(sim, Entries(b), Entries(o), Entries(t)))
  }

  method MergeSubBody(sim: Measure, base: seq<string>, ours: seq<string>, theirs: seq<string>, title: string,
                      st: MergeState)
    returns (out: seq<string>)
    requires PositiveOnText(sim)
    modifies st
    ensures var (pre, items) := SubMerged(sim, base, ours, theirs);
      && out == Body(pre, RenderAll(items))
      && st.conflict == (old(st.conflict) ||
           PreClash(Split(base).pre, Split(ours).pre, Split(theirs).pre) || !Clean(items))
      && st.notes == old(st.notes) + PreNotes(base, ours, theirs, title) + NotesOf(items, title)
  {
    hide Split, Entries, BlockMerged, EnsureBlank, RenderAll, NotesOf, Merged, Body, Flat, Clean;
    var bPre, bEntries := SplitEntries(base);
    var oPre, oEntries := SplitEntries(ours);
    var tPre, tEntries := SplitEntries(theirs);
    out := MergeBlock(bPre, oPre, tPre, "preamble of " + title, st);
    out := EnsureBlank(out, |oEntries| > 0 || |tEntries| > 0);
    var entries := MergeEntries(sim, bEntries, oEntries, tEntries, title, st);
    out := AppendEntries(out, entries);
  }

  method AppendEntries(pre: seq<string>, entries: seq<string>) returns (out: seq<string>)
    ensures out == Body(pre, entries)
  {
    out := pre;
    for k := 0 to |entries|
      invariant out == Body(pre, entries[..k])
    {
      assert Body(pre, entries[..k + 1]) == Body(pre, entries[..k]) + [entries[k] + "\n"];
      out := out + [entries[k] + "\n"];
    }
    assert entries[..|entries|] == entries;
  }

  function PreNotes(base: seq<string>, ours: seq<string>, theirs: seq<string>, title: string): seq<Note> {
    var b, o, t := Flat(Split(base).pre), Flat(Split(ours).pre), Flat(Split(theirs).pre);
    if o != t && o != b && t != b then [BlockNote("preamble of " + title)] else []
  }

  ghost predicate PreClash(base: seq<string>, ours: seq<string>, theirs: seq<string>) {
    !SameText(ours, theirs) && !SameText(ours, base) && !SameText(theirs, base)
  }

  /** A subsection only ours changed comes out as ours, entry for entry, after ours' preamble; one
      both sides changed alike as that; and one only theirs changed holds theirs' entries and the
      text of theirs' preamble. None conflicts. */
  lemma SubsectionLaws(sim: Measure, base: seq<string>, x: seq<string>)
    requires PositiveOnText(sim)
    ensures var b, s := Split(base), Split(x);
      var ours, both, theirs := SubMerged(sim, base, x, base), SubMerged(sim, base, x, x),
        SubMerged(sim, base, base, x);
      && ours == (EnsureBlank(s.pre, s.blocks != [] || b.blocks != []), Plains(Entries(s)))
      && both == (EnsureBlank(s.pre, s.blocks != []), Plains(Entries(s)))
      && Clean(theirs.1) && (forall text: string :: text in RenderAll(theirs.1) <==> text in Entries(s))
      && SameText(BlockMerged(b.pre, b.pre, s.pre), s.pre)
      && !PreClash(b.pre, s.pre, b.pre) && !PreClash(b.pre, s.pre, s.pre) && !PreClash(b.pre, b.pre, s.pre)
  {
    hide Split, Entries, Merged, RenderAll, Clean, Plains, EnsureBlank, Flat;
    var b, s := Split(base), Split(x);
    OnlyOursChanged(sim, Entries(b), Entries(s));
    BothChangedAlike(sim, Entries(b), Entries(s));
    OnlyTheirsChanged(sim, Entries(b), Entries(s));
  }

  /** The order of the sides decides the order of the output, never whether there is a conflict. */
  lemma SubsectionSwaps(sim: Measure, base: seq<string>, ours: seq<string>, theirs: seq<string>)
    requires PositiveOnText(sim)
    ensures var b, o, t := Split(base).pre, Split(ours).pre, Split(theirs).pre;
      var m, w := SubMerged(sim, base, ours, theirs), SubMerged(sim, base, theirs, ours);
      && (PreClash(b, o, t) || !Clean(m.1) <==> PreClash(b, t, o) || !Clean(w.1))
      && (!PreClash(b, o, t) ==> SameText(BlockMerged(b, o, t), BlockMerged(b, t, o)))
  {
    hide Split, Entries, Merged, Clean, EnsureBlank, Flat;
    SwapSides(sim, Entries(Split(base)), Entries(Split(ours)), Entries(Split(theirs)));
  }
}
