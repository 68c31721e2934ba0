/** What the entry merge promises: it is the entry-by-entry three-way merge, it loses no
    change silently, it does not depend on which side is called ours, and it obeys the laws
    of a three-way merge. */
module ChangelogLaws {
  import opened ChangelogAlign
  import opened ChangelogAnalyse
  import opened ChangelogMerge

  // What a side did with one base entry.
  datatype Fate = Kept | Rewritten(text: string) | Removed

  ghost function FateOf(info: SideInfo, bi: nat): Fate {
    if bi !in info.origin then Removed
    else if bi in info.modified then Rewritten(info.modified[bi])
    else Kept
  }

  // Two different changes of one base entry.
  ghost predicate Clash(o: Fate, t: Fate) {
    || (o.Rewritten? && t.Removed?)
    || (o.Removed? && t.Rewritten?)
    || (o.Rewritten? && t.Rewritten? && o.text != t.text)
  }

  // A base entry removed on one side and not rewritten on the other disappears.
  ghost predicate Drops(o: Fate, t: Fate) {
    (o.Removed? && !t.Rewritten?) || (t.Removed? && !o.Rewritten?)
  }

  // The reference: what becomes of one base entry that does not disappear, from its two fates.
  ghost function Winner(was: string, o: Fate, t: Fate): Item {
    match (o, t)
    case (Rewritten(x), Kept) => Plain(x)
    case (Kept, Rewritten(y)) => Plain(y)
    case (Rewritten(x), Rewritten(y)) => if x == y then Plain(x) else ChangedBoth(x, y)
    case (Rewritten(x), Removed) => ChangedRemoved(x)
    case (Removed, Rewritten(y)) => RemovedChanged(was, y)
    case _ => Plain(was)
  }

  ghost predicate Resolves(was: string, o: Fate, t: Fate, it: Item) {
    !Drops(o, t) && it == Winner(was, o, t)
  }

  ghost predicate IsAddition(side: seq<string>, info: SideInfo, text: string) {
    exists j :: j in info.added && 0 <= j < |side| && side[j] == text
  }

  ghost predicate Expected(base: seq<string>, ours: seq<string>, theirs: seq<string>, ob: SideInfo, th: SideInfo,
                           it: Item)
  {
    || (exists bi :: 0 <= bi < |base| && Resolves(base[bi], FateOf(ob, bi), FateOf(th, bi), it))
    || (it.Plain? && (IsAddition(ours, ob, it.text) || IsAddition(theirs, th, it.text)))
  }

  ghost predicate BothAligned(base: seq<string>, ours: seq<string>, theirs: seq<string>, ob: SideInfo, th: SideInfo) {
    Aligned(base, ours, ob) && Aligned(base, theirs, th)
  }

  // One step of the walk over ours does what the reference says for that base entry.
  lemma {:induction false} OursItemResolves(base: seq<string>, ours: seq<string>, theirs: seq<string>, ob: SideInfo,
                                            th: SideInfo, bi: nat)
    requires BothAligned(base, ours, theirs, ob, th) && bi in ob.origin
    ensures bi < |base| && ob.origin[bi] < |ours|
    ensures forall it ::
      it in OursItem(base, ours[ob.origin[bi]], bi, th) <==> Resolves(base[bi], FateOf(ob, bi), FateOf(th, bi), it)
  {
  }

  // The walk over ours reaches exactly the items of its single steps.
  lemma {:induction false} OursItemsExact(base: seq<string>, ours: seq<string>, ob: SideInfo, th: SideInfo, n: nat,
                                          it: Item)
    requires n <= |ours| && forall i :: i in ob.origin ==> i < |base|
    ensures it in OursItems(base, ours, ob, th, n) <==>
      exists j :: 0 <= j < n && it in OursItem(base, ours[j], BaseOf(ob, j), th)
  {
    if n > 0 {
      OursItemsExact(base, ours, ob, th, n - 1, it);
    }
  }

  lemma {:induction false} AddedItemsExact(theirs: seq<string>, added: seq<nat>, n: nat, seen: set<string>,
                                           text: string)
    requires n <= |added| && forall k :: 0 <= k < |added| ==> added[k] < |theirs|
    ensures forall it :: it in AddedItems(theirs, added, n, seen) ==> it.Plain?
    ensures text in seen || Plain(text) in AddedItems(theirs, added, n, seen) <==>
      text in seen || exists k :: 0 <= k < n && theirs[added[k]] == text
  {
    if n > 0 {
      AddedItemsExact(theirs, added, n - 1, seen, text);
    }
  }

  lemma {:induction false} RemovedItemsExact(base: seq<string>, ob: SideInfo, th: SideInfo, n: nat, it: Item)
    requires n <= |base|
    ensures it in RemovedItems(base, ob, th, n) <==>
      exists bi :: 0 <= bi < n && bi !in ob.origin && ModOf(th, bi) != "" &&
        it == RemovedChanged(base[bi], ModOf(th, bi))
  {
    if n > 0 {
      RemovedItemsExact(base, ob, th, n - 1, it);
    }
  }

  // The items of the walk over ours: additions of ours, and the base entries ours still holds.
  ghost predicate FromOurs(base: seq<string>, ours: seq<string>, ob: SideInfo, th: SideInfo, it: Item) {
    || (it.Plain? && IsAddition(ours, ob, it.text))
    || exists bi :: bi in ob.origin && 0 <= bi < |base| && Resolves(base[bi], FateOf(ob, bi), FateOf(th, bi), it)
  }

  lemma {:induction false} WalkIsFromOurs(base: seq<string>, ours: seq<string>, theirs: seq<string>, ob: SideInfo,
                                          th: SideInfo, it: Item)
    requires BothAligned(base, ours, theirs, ob, th)
    ensures it in OursItems(base, ours, ob, th, |ours|) ==> FromOurs(base, ours, ob, th, it)
  {
    OursItemsExact(base, ours, ob, th, |ours|, it);
    if it in OursItems(base, ours, ob, th, |ours|) {
      var j :| 0 <= j < |ours| && it in OursItem(base, ours[j], BaseOf(ob, j), th);
      if j in ob.origin.Values {
        OursItemResolves(base, ours, theirs, ob, th, BaseOf(ob, j));
      } else {
        assert j in ob.added;
      }
    }
  }

  lemma {:induction false} FromOursIsWalked(base: seq<string>, ours: seq<string>, theirs: seq<string>, ob: SideInfo,
                                            th: SideInfo, it: Item)
    requires BothAligned(base, ours, theirs, ob, th)
    ensures FromOurs(base, ours, ob, th, it) ==> it in OursItems(base, ours, ob, th, |ours|)
  {
    OursItemsExact(base, ours, ob, th, |ours|, it);
    if it.Plain? && IsAddition(ours, ob, it.text) {
      var j :| j in ob.added && 0 <= j < |ours| && ours[j] == it.text;
      assert it in OursItem(base, ours[j], BaseOf(ob, j), th);
    } else if FromOurs(base, ours, ob, th, it) {
      var bi :| bi in ob.origin && 0 <= bi < |base| && Resolves(base[bi], FateOf(ob, bi), FateOf(th, bi), it);
      OursItemResolves(base, ours, theirs, ob, th, bi);
      BaseOfOrigin(base, ours, ob, bi);
      assert it in OursItem(base, ours[ob.origin[bi]], BaseOf(ob, ob.origin[bi]), th);
    }
  }

  lemma {:induction false} RemovedIsResolved(base: seq<string>, ours: seq<string>, theirs: seq<string>, ob: SideInfo,
                                             th: SideInfo, it: Item)
    requires BothAligned(base, ours, theirs, ob, th)
    ensures it in RemovedItems(base, ob, th, |base|) <==>
      exists bi :: bi !in ob.origin && 0 <= bi < |base| && Resolves(base[bi], FateOf(ob, bi), FateOf(th, bi), it)
  {
    RemovedItemsExact(base, ob, th, |base|, it);
    forall bi | 0 <= bi < |base| && bi !in ob.origin
      ensures Resolves(base[bi], FateOf(ob, bi), FateOf(th, bi), it) <==>
        ModOf(th, bi) != "" && it == RemovedChanged(base[bi], ModOf(th, bi))
    {
    }
  }

  /** The merged list holds exactly the items of the reference: what becomes of each base entry
      from its two fates, and the additions of both sides. */
  lemma {:induction false} MergeIsThreeWay(base: seq<string>, ours: seq<string>, theirs: seq<string>, ob: SideInfo,
                                           th: SideInfo, it: Item)
    requires BothAligned(base, ours, theirs, ob, th)
    ensures it in MergeItems(base, ours, theirs, ob, th) <==> Expected(base, ours, theirs, ob, th, it)
  {
    var first := OursItems(base, ours, ob, th, |ours|);
    WalkIsFromOurs(base, ours, theirs, ob, th, it);
    FromOursIsWalked(base, ours, theirs, ob, th, it);
    RemovedIsResolved(base, ours, theirs, ob, th, it);
    AddedInside(base, theirs, th);
    var text := if it.Plain? then it.text else "";
    AddedItemsExact(theirs, th.added, |th.added|, TextsIn(first), text);
    TheirAddition(base, theirs, th, text);
    assert text in TextsIn(first) <==> Plain(text) in first;
  }

  lemma {:induction false} TheirAddition(base: seq<string>, theirs: seq<string>, th: SideInfo, text: string)
    requires Aligned(base, theirs, th)
    ensures forall k :: 0 <= k < |th.added| ==> th.added[k] < |theirs|
    ensures IsAddition(theirs, th, text) <==> exists k :: 0 <= k < |th.added| && theirs[th.added[k]] == text
  {
    AddedInside(base, theirs, th);
    if IsAddition(theirs, th, text) {
      var j :| j in th.added && 0 <= j < |theirs| && theirs[j] == text;
      var k :| 0 <= k < |th.added| && th.added[k] == j;
      assert theirs[th.added[k]] == text;
    }
  }

  /** A merge conflicts exactly when some base entry was rewritten on one side and removed on
      the other, or rewritten differently on both. */
  lemma {:induction false} ConflictExactly(base: seq<string>, ours: seq<string>, theirs: seq<string>, ob: SideInfo,
                                           th: SideInfo)
    requires BothAligned(base, ours, theirs, ob, th)
    ensures !Clean(MergeItems(base, ours, theirs, ob, th)) <==>
      exists bi :: 0 <= bi < |base| && Clash(FateOf(ob, bi), FateOf(th, bi))
  {
    hide Aligned, MergeItems, FateOf;
    var items := MergeItems(base, ours, theirs, ob, th);
    if !Clean(items) {
      var it :| it in items && !it.Plain?;
      MergeIsThreeWay(base, ours, theirs, ob, th, it);
    }
    if bi :| 0 <= bi < |base| && Clash(FateOf(ob, bi), FateOf(th, bi)) {
      var it := Winner(base[bi], FateOf(ob, bi), FateOf(th, bi));
      assert Resolves(base[bi], FateOf(ob, bi), FateOf(th, bi), it);
      MergeIsThreeWay(base, ours, theirs, ob, th, it);
    }
  }

  lemma {:induction false} ExpectedSwaps(base: seq<string>, ours: seq<string>, theirs: seq<string>, ob: SideInfo,
                                         th: SideInfo, it: Item)
    requires forall bi :: 0 <= bi < |base| ==> !Clash(FateOf(ob, bi), FateOf(th, bi))
    requires Expected(base, ours, theirs, ob, th, it)
    ensures Expected(base, theirs, ours, th, ob, it)
  {
    if bi :| 0 <= bi < |base| && Resolves(base[bi], FateOf(ob, bi), FateOf(th, bi), it) {
      assert !Clash(FateOf(ob, bi), FateOf(th, bi));
      assert Resolves(base[bi], FateOf(th, bi), FateOf(ob, bi), it);
    }
  }

  lemma {:induction false} SwapItem(base: seq<string>, ours: seq<string>, theirs: seq<string>, ob: SideInfo,
                                    th: SideInfo, it: Item)
    requires BothAligned(base, ours, theirs, ob, th)
    requires forall bi :: 0 <= bi < |base| ==> !Clash(FateOf(ob, bi), FateOf(th, bi))
    requires it in MergeItems(base, ours, theirs, ob, th)
    ensures it in MergeItems(base, theirs, ours, th, ob)
  {
    MergeIsThreeWay(base, ours, theirs, ob, th, it);
    ExpectedSwaps(base, ours, theirs, ob, th, it);
    MergeIsThreeWay(base, theirs, ours, th, ob, it);
  }

  /** Swapping the sides keeps the conflict flag, and a merge without conflict keeps its set of
      entries. */
  lemma {:induction false} SwapSides(sim: Measure, base: seq<string>, ours: seq<string>, theirs: seq<string>)
    requires PositiveOnText(sim)
    ensures Clean(Merged(sim, base, ours, theirs)) <==> Clean(Merged(sim, base, theirs, ours))
    ensures Clean(Merged(sim, base, ours, theirs)) ==>
      forall it :: it in Merged(sim, base, ours, theirs) <==> it in Merged(sim, base, theirs, ours)
  {
    hide Analysis, Aligned, MergeItems, Clean;
    var ob, th := Analysis(sim, base, ours), Analysis(sim, base, theirs);
    AnalysisAligns(sim, base, ours);
    AnalysisAligns(sim, base, theirs);
    SwapAligned(base, ours, theirs, ob, th);
  }

  lemma SwapAligned(base: seq<string>, ours: seq<string>, theirs: seq<string>, ob: SideInfo, th: SideInfo)
    requires BothAligned(base, ours, theirs, ob, th)
    ensures var items, swapped := MergeItems(base, ours, theirs, ob, th), MergeItems(base, theirs, ours, th, ob);
      (Clean(items) <==> Clean(swapped)) && (Clean(items) ==> forall it :: it in items <==> it in swapped)
  {
    hide Aligned, MergeItems, Clean, FateOf;
    var items, swapped := MergeItems(base, ours, theirs, ob, th), MergeItems(base, theirs, ours, th, ob);
    ConflictExactly(base, ours, theirs, ob, th);
    ConflictExactly(base, theirs, ours, th, ob);
    if Clean(items) {
      forall it
        ensures it in items <==> it in swapped
      {
        if it in items {
          SwapItem(base, ours, theirs, ob, th, it);
        }
        if it in swapped {
          SwapItem(base, theirs, ours, th, ob, it);
        }
      }
    }
  }

  // The entry reaches the output, alone or as a half of a conflict block.
  ghost predicate Shown(items: seq<Item>, text: string) {
    exists it :: it in items && Carries(it, text)
  }

  ghost predicate Carries(it: Item, text: string) {
    match it
    case Plain(x) => x == text
    case ChangedRemoved(x) => x == text
    case ChangedBoth(x, y) => x == text || y == text
    case RemovedChanged(_, y) => y == text
  }

  // A side entry that is an untouched base entry.
  ghost predicate UntouchedEntry(info: SideInfo, j: nat, bi: nat) {
    bi in info.origin && info.origin[bi] == j && bi !in info.modified
  }

  lemma {:induction false} EntryShown(base: seq<string>, side: seq<string>, mine: SideInfo, its: SideInfo,
                                      items: seq<Item>, j: nat)
    requires Aligned(base, side, mine) && j < |side|
    requires forall bi, it :: 0 <= bi < |base| && Resolves(base[bi], FateOf(mine, bi), FateOf(its, bi), it) ==>
      Shows(items, it)
    requires forall text :: IsAddition(side, mine, text) ==> Plain(text) in items
    ensures Shown(items, side[j]) || exists bi :: UntouchedEntry(mine, j, bi) && !FateOf(its, bi).Kept?
  {
    if j in mine.added {
      assert IsAddition(side, mine, side[j]);
      assert Carries(Plain(side[j]), side[j]);
    } else {
      var bi :| bi in mine.origin && mine.origin[bi] == j;
      var f, g := FateOf(mine, bi), FateOf(its, bi);
      if f.Kept? && !g.Kept? {
        assert UntouchedEntry(mine, j, bi);
      } else {
        var it := Winner(base[bi], f, g);
        assert Resolves(base[bi], f, g, it);
        assert Shows(items, it);
        assert Carries(it, side[j]);
      }
    }
  }

  // Some item of the list carries every text this item carries.
  ghost predicate Shows(items: seq<Item>, it: Item) {
    forall text :: Carries(it, text) ==> Shown(items, text)
  }

  // Seen from theirs, the reference names the same texts.
  lemma {:induction false} WinnerMirrored(was: string, o: Fate, t: Fate, text: string)
    ensures Drops(o, t) <==> Drops(t, o)
    ensures Carries(Winner(was, o, t), text) <==> Carries(Winner(was, t, o), text)
  {
  }

  /** No change is dropped silently: each entry of either side reaches the output, alone or
      inside a conflict block, unless it is an untouched base entry the other side removed or
      rewrote. */
  lemma {:induction false} NothingDroppedSilently(sim: Measure, base: seq<string>, ours: seq<string>,
                                                  theirs: seq<string>)
    requires PositiveOnText(sim)
    ensures var items := Merged(sim, base, ours, theirs);
      var ob, th := Analysis(sim, base, ours), Analysis(sim, base, theirs);
      && (forall j :: 0 <= j < |ours| ==>
           Shown(items, ours[j]) || exists bi :: UntouchedEntry(ob, j, bi) && !FateOf(th, bi).Kept?)
      && (forall j :: 0 <= j < |theirs| ==>
           Shown(items, theirs[j]) || exists bi :: UntouchedEntry(th, j, bi) && !FateOf(ob, bi).Kept?)
  {
    var items := Merged(sim, base, ours, theirs);
    var ob, th := Analysis(sim, base, ours), Analysis(sim, base, theirs);
    AnalysisAligns(sim, base, ours);
    AnalysisAligns(sim, base, theirs);
    forall it
      ensures it in items <==> Expected(base, ours, theirs, ob, th, it)
    {
      MergeIsThreeWay(base, ours, theirs, ob, th, it);
    }
    forall bi, it | 0 <= bi < |base| && Resolves(base[bi], FateOf(ob, bi), FateOf(th, bi), it)
      ensures Shows(items, it)
    {
      assert it in items;
    }
    forall bi, it | 0 <= bi < |base| && Resolves(base[bi], FateOf(th, bi), FateOf(ob, bi), it)
      ensures Shows(items, it)
    {
      var seen := Winner(base[bi], FateOf(ob, bi), FateOf(th, bi));
      forall text | Carries(it, text)
        ensures Shown(items, text)
      {
        WinnerMirrored(base[bi], FateOf(ob, bi), FateOf(th, bi), text);
        assert seen in items;
      }
    }
    forall j | 0 <= j < |ours| {
      EntryShown(base, ours, ob, th, items, j);
    }
    forall j | 0 <= j < |theirs| {
      EntryShown(base, theirs, th, ob, items, j);
    }
  }

  ghost function Plains(texts: seq<string>): (items: seq<Item>)
    ensures |items| == |texts|
    ensures forall k :: 0 <= k < |texts| ==> items[k] == Plain(texts[k])
  {
    if texts == [] then [] else Plains(texts[..|texts| - 1]) + [Plain(texts[|texts| - 1])]
  }

  lemma RenderPlains(texts: seq<string>)
    ensures RenderAll(Plains(texts)) == texts
  {
  }

  lemma {:induction false} ItemCopiesOurs(base: seq<string>, ours: seq<string>, theirs: seq<string>, ob: SideInfo,
                                          th: SideInfo, j: nat)
    requires BothAligned(base, ours, theirs, ob, th) && j < |ours|
    requires forall bi :: bi in ob.origin ==> FateOf(th, bi).Kept? || FateOf(th, bi) == FateOf(ob, bi)
    ensures OursItem(base, ours[j], BaseOf(ob, j), th) == [Plain(ours[j])]
  {
    if j in ob.origin.Values {
      var bi := BaseOf(ob, j);
      assert bi in ob.origin && ob.origin[bi] == j;
      assert FateOf(th, bi).Kept? || FateOf(th, bi) == FateOf(ob, bi);
    }
  }

  // Ours' walk copies ours when theirs agrees with it on every base entry ours still holds.
  lemma {:induction false} WalkCopiesOurs(base: seq<string>, ours: seq<string>, theirs: seq<string>, ob: SideInfo,
                                          th: SideInfo, n: nat)
    requires BothAligned(base, ours, theirs, ob, th) && n <= |ours|
    requires forall bi :: bi in ob.origin ==> FateOf(th, bi).Kept? || FateOf(th, bi) == FateOf(ob, bi)
    ensures OursItems(base, ours, ob, th, n) == Plains(ours[..n])
  {
    if n > 0 {
      WalkCopiesOurs(base, ours, theirs, ob, th, n - 1);
      ItemCopiesOurs(base, ours, theirs, ob, th, n - 1);
      assert ours[..n][..n - 1] == ours[..n - 1];
    }
  }

  lemma {:induction false} NothingRemoved(base: seq<string>, ob: SideInfo, th: SideInfo, n: nat)
    requires n <= |base|
    requires forall bi :: 0 <= bi < |base| && bi !in ob.origin ==> bi !in th.modified
    ensures RemovedItems(base, ob, th, n) == []
  {
    if n > 0 {
      NothingRemoved(base, ob, th, n - 1);
    }
  }

  lemma {:induction false} NothingNew(theirs: seq<string>, added: seq<nat>, n: nat, seen: set<string>)
    requires n <= |added| && forall k :: 0 <= k < |added| ==> added[k] < |theirs|
    requires forall k :: 0 <= k < |added| ==> theirs[added[k]] in seen
    ensures AddedItems(theirs, added, n, seen) == []
  {
    if n > 0 {
      NothingNew(theirs, added, n - 1, seen);
    }
  }

  lemma {:induction false} UntouchedTheirs(base: seq<string>, x: seq<string>, ob: SideInfo, th: SideInfo)
    requires BothAligned(base, x, base, ob, th) && Untouched(base, th)
    ensures MergeItems(base, x, base, ob, th) == Plains(x)
  {
    hide TextsIn, OursItem;
    WalkCopiesOurs(base, x, base, ob, th, |x|);
    assert x[..|x|] == x;
    NothingRemoved(base, ob, th, |base|);
    assert Plains(x) + [] + [] == Plains(x);
  }

  /** Only ours changed: the merge is ours, entry for entry. */
  lemma {:induction false} OnlyOursChanged(sim: Measure, base: seq<string>, x: seq<string>)
    requires PositiveOnText(sim)
    ensures Merged(sim, base, x, base) == Plains(x)
    ensures RenderAll(Merged(sim, base, x, base)) == x
  {
    hide Analysis, Aligned, MergeItems, RenderAll;
    AnalysisAligns(sim, base, x);
    AnalysisAligns(sim, base, base);
    AnalysisOfSame(sim, base);
    UntouchedTheirs(base, x, Analysis(sim, base, x), Analysis(sim, base, base));
    RenderPlains(x);
  }

  /** Both sides made the same changes: the merge is that side, entry for entry. */
  lemma {:induction false} BothChangedAlike(sim: Measure, base: seq<string>, x: seq<string>)
    requires PositiveOnText(sim)
    ensures Merged(sim, base, x, x) == Plains(x)
    ensures RenderAll(Merged(sim, base, x, x)) == x
  {
    hide Analysis, Aligned, MergeItems, RenderAll;
    AnalysisAligns(sim, base, x);
    SameOnBothSides(base, x, Analysis(sim, base, x));
    RenderPlains(x);
  }

  lemma SameOnBothSides(base: seq<string>, x: seq<string>, ob: SideInfo)
    requires Aligned(base, x, ob)
    ensures MergeItems(base, x, x, ob, ob) == Plains(x)
  {
    hide TextsIn, OursItem;
    WalkCopiesOurs(base, x, x, ob, ob, |x|);
    assert x[..|x|] == x;
    NothingRemoved(base, ob, ob, |base|);
    AddedInside(base, x, ob);
    var items := Plains(x);
    forall k | 0 <= k < |ob.added|
      ensures x[ob.added[k]] in TextsIn(items)
    {
      TextOfPlain(x, ob.added[k]);
    }
    NothingNew(x, ob.added, |ob.added|, TextsIn(items));
    assert items + [] + [] == items;
  }

  lemma TextOfPlain(x: seq<string>, j: nat)
    requires j < |x|
    ensures x[j] in TextsIn(Plains(x))
  {
    assert Plains(x)[j] in Plains(x);
  }

  /** Only theirs changed: no conflict, and the merge holds exactly theirs' entries. */
  lemma {:induction false} OnlyTheirsChanged(sim: Measure, base: seq<string>, x: seq<string>)
    requires PositiveOnText(sim)
    ensures Clean(Merged(sim, base, base, x))
    ensures forall text :: text in RenderAll(Merged(sim, base, base, x)) <==> text in x
  {
    var out := Merged(sim, base, base, x);
    OnlyOursChanged(sim, base, x);
    SwapSides(sim, base, x, base);
    forall text
      ensures text in RenderAll(out) <==> text in x
    {
      if text in x {
        assert Plain(text) in Plains(x);
        assert Plain(text) in out;
        var k :| 0 <= k < |out| && out[k] == Plain(text);
        assert RenderAll(out)[k] == text;
      }
      if text in RenderAll(out) {
        var k :| 0 <= k < |out| && RenderAll(out)[k] == text;
        assert out[k] in out && out[k] in Plains(x);
      }
    }
  }
}
