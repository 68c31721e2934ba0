/** The three-way merge of one subsection's entries: ours' order is kept, theirs' new entries
    follow, and two different changes of one base entry become a conflict block. */
module ChangelogMerge {
  import opened ChangelogAlign
  import opened ChangelogAnalyse

  // One piece of the merged list: an entry, or a conflict over one base entry.
  datatype Item =
    | Plain(text: string)
    | ChangedRemoved(ours: string)
    | ChangedBoth(ours: string, theirs: string)
    | RemovedChanged(was: string, theirs: string)

  // A conflict over one entry, or over a block of lines.
  datatype Note = Note(clash: Item, heading: string) | BlockNote(what: string)

  // The notes and the conflict flag one merge collects.
  class MergeState {
    var notes: seq<Note>
    var conflict: bool

    constructor ()
      ensures notes == [] && !conflict
    {
      notes, conflict := [], false;
    }

    method Conflict(note: Note)
      modifies this
      ensures conflict && notes == old(notes) + [note]
    {
      conflict := true;
      notes := notes + [note];
    }
  }

  function TrimRightNewlines(s: string): (r: string)
    ensures r <= s
    ensures r == "" || r[|r| - 1] != '\n'
    ensures forall k :: |r| <= k < |s| ==> s[k] == '\n'
  {
    if s != "" && s[|s| - 1] == '\n' then TrimRightNewlines(s[..|s| - 1]) else s
  }

  // A git style conflict for one entry; a missing side leaves its half empty.
  function ConflictBlock(ours: string, theirs: string, hasOurs: bool, hasTheirs: bool): string {
    "<<<<<<< ours\n"
    + (if hasOurs then TrimRightNewlines(ours) + "\n" else "")
    + "=======\n"
    + (if hasTheirs then TrimRightNewlines(theirs) + "\n" else "")
    + ">>>>>>> theirs"
  }

  function Render(item: Item): string {
    match item
    case Plain(text) => text
    case ChangedRemoved(ours) => ConflictBlock(ours, "", true, false)
    case ChangedBoth(ours, theirs) => ConflictBlock(ours, theirs, true, true)
    case RemovedChanged(_, theirs) => ConflictBlock("", theirs, false, true)
  }

  function RenderAll(items: seq<Item>): (out: seq<string>)
    ensures |out| == |items|
    ensures forall k :: 0 <= k < |items| ==> out[k] == Render(items[k])
  {
    seq(|items|, k requires 0 <= k < |items| => Render(items[k]))
  }

  function NotesOf(items: seq<Item>, heading: string): seq<Note> {
    if items == [] then []
    else
      NotesOf(items[..|items| - 1], heading)
      + (if items[|items| - 1].Plain? then [] else [Note(items[|items| - 1], heading)])
  }

  ghost function TextsIn(items: seq<Item>): set<string> {
    set it | it in items && it.Plain? :: it.text
  }

  ghost predicate Clean(items: seq<Item>) {
    forall it :: it in items ==> it.Plain?
  }

  // The base entry a side entry comes from, -1 for a new one.
  ghost function BaseOf(info: SideInfo, j: nat): int {
    if j in info.origin.Values then var bi :| bi in info.origin && info.origin[bi] == j; bi else -1
  }

  // What theirs made of a base entry's text; "" when it did not rewrite it.
  function ModOf(info: SideInfo, bi: nat): string {
    if bi in info.modified then info.modified[bi] else ""
  }

  // The branches of the walk over ours.
  ghost function OursItem(base: seq<string>, text: string, bi: int, th: SideInfo): seq<Item>
    requires bi < |base|
  {
    if bi < 0 then [Plain(text)]
    else
      var tMod := ModOf(th, bi);
      var oursChanged := text != base[bi];
      if bi !in th.origin && tMod == "" then (if oursChanged then [ChangedRemoved(text)] else [])
      else if tMod == "" then [Plain(text)]
      else if tMod == text then [Plain(text)]
      else if !oursChanged then [Plain(tMod)]
      else [ChangedBoth(text, tMod)]
  }

  ghost function OursItems(base: seq<string>, ours: seq<string>, ob: SideInfo, th: SideInfo, n: nat): seq<Item>
    requires n <= |ours| && forall i :: i in ob.origin ==> i < |base|
  {
    if n == 0 then []
    else OursItems(base, ours, ob, th, n - 1) + OursItem(base, ours[n - 1], BaseOf(ob, n - 1), th)
  }

  // Theirs' new entries, skipping texts already in the output.
  ghost function AddedItems(theirs: seq<string>, added: seq<nat>, n: nat, seen: set<string>): seq<Item>
    requires n <= |added| && forall k :: 0 <= k < |added| ==> added[k] < |theirs|
  {
    if n == 0 then []
    else
      var prev := AddedItems(theirs, added, n - 1, seen);
      var text := theirs[added[n - 1]];
      if text in seen + TextsIn(prev) then prev else prev + [Plain(text)]
  }

  // Base entries ours removed and theirs rewrote.
  ghost function RemovedItems(base: seq<string>, ob: SideInfo, th: SideInfo, n: nat): seq<Item>
    requires n <= |base|
  {
    if n == 0 then []
    else
      var prev := RemovedItems(base, ob, th, n - 1);
      var tMod := ModOf(th, n - 1);
      if n - 1 !in ob.origin && tMod != "" then prev + [RemovedChanged(base[n - 1], tMod)] else prev
  }

  ghost function MergeItems(base: seq<string>, ours: seq<string>, theirs: seq<string>, ob: SideInfo,
                            th: SideInfo): seq<Item>
    requires Aligned(base, ours, ob) && Aligned(base, theirs, th)
  {
    AddedInside(base, theirs, th);
    var first := OursItems(base, ours, ob, th, |ours|);
    first + AddedItems(theirs, th.added, |th.added|, TextsIn(first)) + RemovedItems(base, ob, th, |base|)
  }

  lemma AddedInside(base: seq<string>, side: seq<string>, info: SideInfo)
    requires Aligned(base, side, info)
    ensures forall k :: 0 <= k < |info.added| ==> info.added[k] < |side|
  {
    assert forall k :: 0 <= k < |info.added| ==> info.added[k] in info.added;
  }

  ghost function Merged(sim: Measure, base: seq<string>, ours: seq<string>, theirs: seq<string>): seq<Item>
    requires PositiveOnText(sim)
  {
    AnalysisAligns(sim, base, ours);
    AnalysisAligns(sim, base, theirs);
    MergeItems(base, ours, theirs, Analysis(sim, base, ours), Analysis(sim, base, theirs))
  }

  // What the merge has written after some items: the list, the texts outside conflict blocks,
  // the notes and whether a conflict was among them.
  datatype Written = Written(out: seq<string>, emitted: set<string>, notes: seq<Note>, clash: bool)

  ghost function After(items: seq<Item>, heading: string): Written {
    if items == [] then Written([], {}, [], false)
    else Write(After(items[..|items| - 1], heading), items[|items| - 1], heading)
  }

  ghost function Write(w: Written, it: Item, heading: string): Written {
    if it.Plain? then w.(out := w.out + [it.text], emitted := w.emitted + {it.text})
    else w.(out := w.out + [Render(it)], notes := w.notes + [Note(it, heading)], clash := true)
  }

  lemma AfterSnoc(items: seq<Item>, it: Item, heading: string)
    ensures After(items + [it], heading) == Write(After(items, heading), it, heading)
  {
    assert (items + [it])[..|items|] == items;
  }

  lemma {:induction false} AfterMeans(items: seq<Item>, heading: string)
    ensures After(items, heading) == Written(RenderAll(items), TextsIn(items), NotesOf(items, heading), !Clean(items))
  {
    if items != [] {
      var prev, it := items[..|items| - 1], items[|items| - 1];
      AfterMeans(prev, heading);
      hide RenderAll, Clean, TextsIn, Render;
      assert items == prev + [it];
      RenderedSnoc(prev, it);
      TextsSnoc(prev, it);
      CleanSnoc(prev, it);
    } else {
      assert RenderAll([]) == [] && TextsIn([]) == {} && Clean([]);
    }
  }

  lemma RenderedSnoc(items: seq<Item>, it: Item)
    ensures RenderAll(items + [it]) == RenderAll(items) + [Render(it)]
    ensures it.Plain? ==> Render(it) == it.text
  {
  }

  lemma CleanSnoc(items: seq<Item>, it: Item)
    ensures Clean(items + [it]) <==> Clean(items) && it.Plain?
  {
    assert forall x :: x in items + [it] <==> x in items || x == it;
  }

  lemma TextsSnoc(items: seq<Item>, it: Item)
    ensures TextsIn(items + [it]) == TextsIn(items) + if it.Plain? then {it.text} else {}
  {
    assert forall x :: x in items + [it] <==> x in items || x == it;
    assert it in items + [it];
  }

  lemma TextsAppend(xs: seq<Item>, ys: seq<Item>)
    ensures TextsIn(xs + ys) == TextsIn(xs) + TextsIn(ys)
  {
    assert forall x :: x in xs + ys <==> x in xs || x in ys;
  }

  // The merged list so far, with the texts it holds outside conflict blocks.
  class MergeOutput {
    var out: seq<string>
    var emitted: set<string>
    const st: MergeState
    const heading: string
    ghost var items: seq<Item>
    ghost const notes: seq<Note>
    ghost const conflict: bool

    ghost predicate Valid()
      reads this, st
    {
      && out == After(items, heading).out
      && emitted == After(items, heading).emitted
      && st.notes == notes + After(items, heading).notes
      && st.conflict == (conflict || After(items, heading).clash)
    }

    constructor (heading: string, st: MergeState)
      ensures Valid() && items == [] && this.st == st && this.heading == heading
      ensures notes == st.notes && conflict == st.conflict
    {
      out, emitted, items := [], {}, [];
      this.heading, this.st := heading, st;
      notes, conflict := st.notes, st.conflict;
    }

    method Emit(text: string)
      requires Valid()
      modifies this
      ensures Valid() && items == old(items) + [Plain(text)]
    {
      AfterSnoc(items, Plain(text), heading);
      out := out + [text];
      emitted := emitted + {text};
      items := items + [Plain(text)];
    }

    // Emit a text the list does not hold yet.
    method EmitNew(text: string)
      requires Valid()
      modifies this
      ensures Valid() && items == old(items) + if text in TextsIn(old(items)) then [] else [Plain(text)]
    {
      AfterMeans(items, heading);
      if text !in emitted {
        Emit(text);
      }
    }

    method EmitConflict(clash: Item)
      requires Valid() && !clash.Plain?
      modifies this, st
      ensures Valid() && items == old(items) + [clash]
    {
      AfterSnoc(items, clash, heading);
      st.Conflict(Note(clash, heading));
      out := out + [Render(clash)];
      items := items + [clash];
    }
  }

  lemma BaseOfOrigin(base: seq<string>, side: seq<string>, info: SideInfo, bi: nat)
    requires Aligned(base, side, info) && bi in info.origin
    ensures BaseOf(info, info.origin[bi]) == bi
  {
    assert info.origin[bi] in info.origin.Values;
  }

  method BackMap(base: seq<string>, side: seq<string>, info: SideInfo) returns (sideBase: array<int>)
    requires Aligned(base, side, info)
    ensures fresh(sideBase) && sideBase.Length == |side|
    ensures forall j :: 0 <= j < |side| ==> sideBase[j] == BaseOf(info, j)
  {
    sideBase := new int[|side|](_ => -1);
    var todo := info.origin.Keys;
    while todo != {}
      invariant todo <= info.origin.Keys
      invariant forall j :: 0 <= j < |side| && sideBase[j] != -1 ==> sideBase[j] == BaseOf(info, j)
      invariant forall bi :: bi in info.origin && bi !in todo ==> sideBase[info.origin[bi]] == bi
    {
      var bi :| bi in todo;
      BaseOfOrigin(base, side, info, bi);
      sideBase[info.origin[bi]] := bi;
      todo := todo - {bi};
    }
    forall j | 0 <= j < |side|
      ensures sideBase[j] == BaseOf(info, j)
    {
      if j in info.origin.Values {
        var bi :| bi in info.origin && info.origin[bi] == j;
        assert sideBase[j] == bi;
      }
    }
  }

  method MergeEntries(sim: Measure, base: seq<string>, ours: seq<string>, theirs: seq<string>, heading: string,
                      st: MergeState)
    returns (out: seq<string>)
    requires PositiveOnText(sim)
    modifies st
    ensures out == RenderAll(Merged(sim, base, ours, theirs))
    ensures st.notes == old(st.notes) + NotesOf(Merged(sim, base, ours, theirs), heading)
    ensures st.conflict <==> old(st.conflict) || !Clean(Merged(sim, base, ours, theirs))
  {
    var ob := Analyse(sim, base, ours);
    var th := Analyse(sim, base, theirs);
    AnalysisAligns(sim, base, ours);
    AnalysisAligns(sim, base, theirs);
    var o := new MergeOutput(heading, st);
    WalkOurs(base, ours, ob, th, o);
    AppendAdded(base, theirs, th, o);
    AppendRemoved(base, ob, th, o);
    AfterMeans(o.items, heading);
    out := o.out;
  }

  method WalkOurs(base: seq<string>, ours: seq<string>, ob: SideInfo, th: SideInfo, o: MergeOutput)
    requires Aligned(base, ours, ob)
    requires o.Valid() && o.items == []
    modifies o, o.st
    ensures o.Valid() && o.items == OursItems(base, ours, ob, th, |ours|)
  {
    hide After, OursItem;
    var oursBase := BackMap(base, ours, ob);
    for j := 0 to |ours|
      invariant o.Valid() && o.items == OursItems(base, ours, ob, th, j)
      invariant forall k :: 0 <= k < |ours| ==> oursBase[k] == BaseOf(ob, k)
    {
      assert BaseOf(ob, j) < |base|;
      EmitOurs(base, ours[j], oursBase[j], th, o);
    }
  }

  method EmitOurs(base: seq<string>, text: string, bi: int, th: SideInfo, o: MergeOutput)
    requires bi < |base| && o.Valid()
    modifies o, o.st
    ensures o.Valid() && o.items == old(o.items) + OursItem(base, text, bi, th)
  {
    if bi < 0 {
      o.Emit(text);
      return;
    }
    var inTheirs := bi in th.origin;
    var tMod := ModOf(th, bi);
    var oursChanged := text != base[bi];
    if !inTheirs && tMod == "" {
      // replaced on one side, removed on the other; left alone and removed: the removal wins
      if oursChanged {
        o.EmitConflict(ChangedRemoved(text));
      }
    } else if tMod == "" {
      o.Emit(text);
    } else if tMod == text {
      o.Emit(text);
    } else if !oursChanged {
      o.Emit(tMod);
    } else {
      o.EmitConflict(ChangedBoth(text, tMod));
    }
  }

  method AppendAdded(base: seq<string>, theirs: seq<string>, th: SideInfo, o: MergeOutput)
    requires Aligned(base, theirs, th) && o.Valid()
    modifies o
    ensures o.Valid()
    ensures forall k :: 0 <= k < |th.added| ==> th.added[k] < |theirs|
    ensures o.items == old(o.items) + AddedItems(theirs, th.added, |th.added|, TextsIn(old(o.items)))
  {
    AddedInside(base, theirs, th);
    hide Aligned, TextsIn, After, AddedItems, WithAdded;
    ghost var first := o.items;
    assert WithAdded(first, theirs, th.added, 0) == first by {
      NoneMore(first, theirs, th.added);
    }
    for k := 0 to |th.added|
      invariant o.Valid() && o.items == WithAdded(first, theirs, th.added, k)
    {
      WithOneMore(first, theirs, th.added, k);
      o.EmitNew(theirs[th.added[k]]);
    }
    AddedBehind(first, theirs, th.added, |th.added|);
  }

  // Some items with theirs' new entries emitted behind them one by one.
  ghost function WithAdded(first: seq<Item>, theirs: seq<string>, added: seq<nat>, n: nat): seq<Item>
    requires n <= |added| && forall k :: 0 <= k < |added| ==> added[k] < |theirs|
  {
    if n == 0 then first
    else
      var prev, text := WithAdded(first, theirs, added, n - 1), theirs[added[n - 1]];
      prev + if text in TextsIn(prev) then [] else [Plain(text)]
  }

  lemma NoneMore(first: seq<Item>, theirs: seq<string>, added: seq<nat>)
    requires forall k :: 0 <= k < |added| ==> added[k] < |theirs|
    ensures WithAdded(first, theirs, added, 0) == first
  {
  }

  lemma WithOneMore(first: seq<Item>, theirs: seq<string>, added: seq<nat>, n: nat)
    requires n < |added| && forall k :: 0 <= k < |added| ==> added[k] < |theirs|
    ensures var prev, text := WithAdded(first, theirs, added, n), theirs[added[n]];
      WithAdded(first, theirs, added, n + 1) == prev + if text in TextsIn(prev) then [] else [Plain(text)]
  {
  }

  lemma {:induction false} AddedBehind(first: seq<Item>, theirs: seq<string>, added: seq<nat>, n: nat)
    requires n <= |added| && forall k :: 0 <= k < |added| ==> added[k] < |theirs|
    ensures WithAdded(first, theirs, added, n) == first + AddedItems(theirs, added, n, TextsIn(first))
  {
    if n > 0 {
      AddedBehind(first, theirs, added, n - 1);
      var prev := AddedItems(theirs, added, n - 1, TextsIn(first));
      TextsAppend(first, prev);
      hide TextsIn;
      assert TextsIn(first + prev) == TextsIn(first) + TextsIn(prev);
      var next := [Plain(theirs[added[n - 1]])];
      assert (first + prev) + next == first + (prev + next) && (first + prev) + [] == first + prev;
    }
  }

  method AppendRemoved(base: seq<string>, ob: SideInfo, th: SideInfo, o: MergeOutput)
    requires o.Valid()
    modifies o, o.st
    ensures o.Valid() && o.items == old(o.items) + RemovedItems(base, ob, th, |base|)
  {
    hide After, ModOf;
    for bi := 0 to |base|
      invariant o.Valid() && o.items == old(o.items) + RemovedItems(base, ob, th, bi)
    {
      if bi in ob.origin {
        continue;
      }
      var tMod := ModOf(th, bi);
      if tMod != "" {
        o.EmitConflict(RemovedChanged(base[bi], tMod));
      }
    }
  }
}
