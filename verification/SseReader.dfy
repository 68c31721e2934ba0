/** The parser seen one character at a time: what it remembers of the unfinished block, and the frames
    a text makes it emit. */
module SseReader {
  import opened GoText
  import opened SseParse
  import opened SseStream

  // What the complete lines of the block have set, the line being read, and whether a line has just
  // ended.
  datatype Reader = Reader(block: Block, line: string, broken: bool)

  const NOTHING := Block("", [], false)
  const FRESH := Reader(NOTHING, "", false)

  function FrameOut(b: Block): seq<Event> { if b.haveEvent then [Event(b.event, Join(b.data))] else [] }

  function Feed(s: Reader, c: char): Reader {
    if c != '\n' then Reader(s.block, s.line + [c], false)
    else if s.broken then FRESH
    else Reader(OfLine(s.block, s.line), "", true)
  }

  function EmitsOne(s: Reader, c: char): seq<Event> { if c == '\n' && s.broken then FrameOut(s.block) else [] }

  function Fed(s: Reader, t: string): Reader
    decreases |t|
  {
    if t == "" then s else Fed(Feed(s, t[0]), t[1..])
  }

  function Emits(s: Reader, t: string): seq<Event>
    decreases |t|
  {
    if t == "" then [] else EmitsOne(s, t[0]) + Emits(Feed(s, t[0]), t[1..])
  }

  lemma {:induction false} FedAppend(s: Reader, t: string, u: string)
    ensures Fed(s, t + u) == Fed(Fed(s, t), u)
    ensures Emits(s, t + u) == Emits(s, t) + Emits(Fed(s, t), u)
    decreases |t|
  {
    hide Feed, EmitsOne;
    if t == "" {
      assert t + u == u;
    } else {
      assert (t + u)[1..] == t[1..] + u;
      FedAppend(Feed(s, t[0]), t[1..], u);
    }
  }

  lemma FedOne(s: Reader, c: char)
    ensures Fed(s, [c]) == Feed(s, c) && Emits(s, [c]) == EmitsOne(s, c)
  {
    hide Feed, EmitsOne;
    assert [c][1..] == "";
  }

  predicate EndsLine(t: string) { t != "" && t[|t| - 1] == '\n' }

  // Where a reader stands after a text.
  lemma {:induction false} StandsAfter(t: string)
    ensures var s := Fed(FRESH, t);
      && (s.broken ==> EndsLine(t)) && (EndsLine(t) ==> s.line == "")
      && (EndsLine(t) && !s.broken ==> s == FRESH)
      && (!s.block.haveEvent ==> s.block.event == "")
      && '\n' !in s.line && (forall d :: d in s.block.data ==> '\n' !in d)
  {
    hide TrimSpace;
    if t != "" {
      var front, c := t[..|t| - 1], t[|t| - 1];
      assert t == front + [c];
      StandsAfter(front);
      FedAppend(FRESH, front, [c]);
      FedOne(Fed(FRESH, front), c);
    }
  }

  lemma LinesStep(s: string)
    ensures SplitLines("") == [""]
    ensures s != "" ==>
      var more := SplitLines(s[1..]);
      SplitLines(s) == if s[0] == '\n' then [""] + more else [[s[0]] + more[0]] + more[1..]
  {
  }

  lemma {:induction false} SplitLinesSnoc(q: string, c: char)
    ensures var lines := SplitLines(q); var n := |lines| - 1;
      SplitLines(q + [c]) == if c == '\n' then lines + [""] else lines[..n] + [lines[n] + [c]]
  {
    hide SplitLines;
    LinesStep(q);
    LinesStep(q + [c]);
    if q == "" {
      assert (q + [c])[1..] == "" && [c] + "" == "" + [c];
    } else {
      var first, more := q[0], SplitLines(q[1..]);
      assert (q + [c])[1..] == q[1..] + [c] && (q + [c])[0] == first;
      SplitLinesSnoc(q[1..], c);
      var n := |more| - 1;
      if n == 0 && first != '\n' {
        assert more == [more[0]] && more[1..] == [] && more[..0] == [];
        assert [first] + (more[0] + [c]) == ([first] + more[0]) + [c];
      }
    }
  }

  // Nothing closed inside.
  ghost predicate Single(p: string) {
    forall i :: 0 <= i < |p| - 1 && p[i] == '\n' ==> p[i + 1] != '\n'
  }

  lemma {:induction false} SingleIs(p: string)
    requires Single(p)
    ensures Split(p) == [p]
  {
    if p != "" {
      assert Single(p[1..]) by {
        assert forall i :: 0 <= i < |p[1..]| ==> p[1..][i] == p[i + 1];
      }
      SingleIs(p[1..]);
      assert p == [p[0]] + p[1..];
    }
  }

  lemma {:induction false} LastIsSingle(t: string)
    ensures Single(Split(t)[|Split(t)| - 1])
  {
    if t != "" {
      if StartsBlank(t) {
        LastIsSingle(t[2..]);
      } else {
        LastIsSingle(t[1..]);
        var more := Split(t[1..]);
        if |more| == 1 {
          SplitSingle(t[1..]);
          var p := [t[0]] + more[0];
          assert p == t;
          forall i | 0 <= i < |p| - 1 && p[i] == '\n'
            ensures p[i + 1] != '\n'
          {
            if i > 0 {
              assert more[0][i - 1] == p[i] && more[0][i] == p[i + 1];
            }
          }
        }
      }
    }
  }

  lemma {:induction false} ClosedSplits(block: string)
    requires Single(block + ['\n'])
    ensures Split(block + ['\n'] + ['\n']) == [block, ""]
  {
    var t := block + ['\n'] + ['\n'];
    if block == "" {
      assert t[2..] == "";
    } else {
      var tail := block[1..];
      assert t[1..] == tail + ['\n'] + ['\n'];
      forall i | 0 <= i < |tail + ['\n']| - 1 && (tail + ['\n'])[i] == '\n'
        ensures (tail + ['\n'])[i + 1] != '\n'
      {
        assert (block + ['\n'])[i + 1] == '\n' && (block + ['\n'])[i + 2] == (tail + ['\n'])[i + 1];
      }
      ClosedSplits(tail);
      assert (block + ['\n'])[0] == '\n' ==> (block + ['\n'])[1] != '\n';
      assert [t[0]] + tail == block;
    }
  }

  lemma SingleSnoc(p: string, c: char)
    requires Single(p)
    ensures EndsLine(p) && c == '\n' ==> Split(p + [c]) == [p[..|p| - 1], ""]
    ensures !(EndsLine(p) && c == '\n') ==> Single(p + [c])
  {
    hide Split;
    if EndsLine(p) && c == '\n' {
      var block := p[..|p| - 1];
      assert p == block + ['\n'];
      ClosedSplits(block);
    }
  }

  lemma SingleFront(p: string, c: char)
    requires Single(p + [c])
    ensures Single(p) && !(EndsLine(p) && c == '\n')
  {
    var longer := p + [c];
    assert longer[|p|] == c && forall i :: 0 <= i < |p| ==> longer[i] == p[i];
    forall i | 0 <= i < |p| - 1 && p[i] == '\n'
      ensures p[i + 1] != '\n'
    {
      assert longer[i] == '\n';
    }
    assert EndsLine(p) ==> longer[|p| - 1] == '\n';
  }

  // A single piece emits nothing, and is remembered as its lines.
  lemma {:induction false} ReadsLines(p: string)
    requires Single(p)
    ensures var s, lines := Fed(FRESH, p), SplitLines(p); var n := |lines| - 1;
      && Emits(FRESH, p) == []
      && s.block == OfLines(lines[..n]) && s.line == lines[n] && (s.broken <==> EndsLine(p))
  {
    hide Split, Single, OfLine, SplitLines, Fed, Emits, OfLines;
    if p != "" {
      var front, c := p[..|p| - 1], p[|p| - 1];
      assert p == front + [c];
      SingleFront(front, c);
      ReadsLines(front);
      FedAppend(FRESH, front, [c]);
      FedOne(Fed(FRESH, front), c);
      SplitLinesSnoc(front, c);
      var was := SplitLines(front);
      if c == '\n' {
        assert (was + [""])[..|was|] == was;
        OneMoreLine(was);
      } else {
        var now := was[..|was| - 1] + [was[|was| - 1] + [c]];
        assert now[..|now| - 1] == was[..|was| - 1];
      }
    } else {
      NothingRead();
    }
  }

  lemma NothingRead()
    ensures Fed(FRESH, "") == FRESH && Emits(FRESH, "") == [] && SplitLines("") == [""] && OfLines([""][..0]) == NOTHING
  {
    assert [""][..0] == [];
  }

  lemma OneMoreLine(lines: seq<string>)
    requires lines != []
    ensures OfLines(lines) == OfLine(OfLines(lines[..|lines| - 1]), lines[|lines| - 1])
  {
    hide OfLine;
  }

  lemma {:induction false} TrimmedBlank(s: string)
    ensures TrimLeft(s) == "" ==> forall c :: c in s ==> IsSpace(c)
    ensures TrimRight(s) == "" ==> forall c :: c in s ==> IsSpace(c)
  {
    if s != "" {
      TrimmedBlank(s[1..]);
      TrimmedBlank(s[..|s| - 1]);
      assert s == [s[0]] + s[1..] && s == s[..|s| - 1] + [s[|s| - 1]];
    }
  }

  lemma {:induction false} TrimLeftKeepsSpaces(s: string)
    requires forall c :: c in TrimLeft(s) ==> IsSpace(c)
    ensures forall c :: c in s ==> IsSpace(c)
  {
    if s != "" && IsSpace(s[0]) {
      TrimLeftKeepsSpaces(s[1..]);
      assert s == [s[0]] + s[1..];
    }
  }

  lemma {:induction false} LinesAreOfText(s: string, line: string)
    requires line in SplitLines(s)
    ensures forall c :: c in line ==> c in s
  {
    if s != "" {
      var lines := SplitLines(s[1..]);
      assert s == [s[0]] + s[1..];
      if s[0] == '\n' {
        assert SplitLines(s) == [""] + lines;
        if line in lines {
          LinesAreOfText(s[1..], line);
        }
      } else {
        LinesAreOfText(s[1..], lines[0]);
        if line in lines[1..] {
          LinesAreOfText(s[1..], line);
        }
      }
    }
  }

  lemma {:induction false} NoEventIn(lines: seq<string>)
    requires forall line :: line in lines ==> !("event:" <= line)
    ensures !OfLines(lines).haveEvent
  {
    hide TrimSpace;
    if lines != [] {
      var n := |lines| - 1;
      assert forall line :: line in lines[..n] ==> line in lines;
      NoEventIn(lines[..n]);
      assert lines[n] in lines;
    }
  }

  // The parser's own check for blank blocks changes nothing.
  lemma BlankHoldsNoEvent(block: string)
    requires TrimSpace(block) == ""
    ensures !OfLines(SplitLines(block)).haveEvent
  {
    hide OfLines, SplitLines, IsSpace;
    TrimmedBlank(TrimLeft(block));
    TrimLeftKeepsSpaces(block);
    forall line | line in SplitLines(block)
      ensures !("event:" <= line)
    {
      LinesAreOfText(block, line);
      if "event:" <= line {
        assert line[0] == 'e' && 'e' in line && 'e' in block;
        assert !IsSpace('e') by {
          EIsNoSpace();
        }
      }
    }
    NoEventIn(SplitLines(block));
  }

  lemma EIsNoSpace()
    ensures !IsSpace('e')
  {
  }

  lemma FrameIsEmitted(block: string)
    ensures FrameOf(block) == FrameOut(OfLines(SplitLines(block)))
  {
    hide OfLines, SplitLines, TrimSpace;
    if TrimSpace(block) == "" {
      BlankHoldsNoEvent(block);
    }
  }

  /** Reading on from a piece, the reader emits the frames the parser finds, and remembers its
      unfinished piece. */
  lemma {:induction false} ReaderIsParser(p: string, t: string)
    requires Single(p)
    ensures var parts := Split(p + t); var n := |parts| - 1;
      && Emits(Fed(FRESH, p), t) == FramesOf(parts[..n])
      && Fed(Fed(FRESH, p), t) == Fed(FRESH, parts[n]) && Single(parts[n])
    decreases |t|
  {
    hide Split, FrameOf, SplitLines, OfLines, Feed, EmitsOne, Single;
    if t == "" {
      assert p + t == p && [p][..0] == [];
      SingleIs(p);
    } else {
      var c, more := t[0], t[1..];
      assert t == [c] + more && p + t == (p + [c]) + more;
      SingleSnoc(p, c);
      FedAppend(FRESH, p, [c]);
      FedOne(Fed(FRESH, p), c);
      ReadsLines(p);
      if EndsLine(p) && c == '\n' {
        ClosesBlock(p);
        ReaderIsParser("", more);
        assert "" + more == more;
        SplitAppend(p + [c], more);
        SingleIs("");
        var block := p[..|p| - 1];
        assert [block, ""][..1] == [block];
        var rest := Split(more);
        assert ([block] + rest)[..|[block] + rest| - 1] == [block] + rest[..|rest| - 1];
        FramesAppend([block], rest[..|rest| - 1]);
        OneFrame(block);
      } else {
        StaysQuiet(Fed(FRESH, p), c);
        ReaderIsParser(p + [c], more);
      }
    }
  }

  lemma OneFrame(block: string)
    ensures FramesOf([block]) == FrameOf(block)
  {
    hide FrameOf;
    assert [block][..0] == [];
  }

  lemma StaysQuiet(s: Reader, c: char)
    ensures !(c == '\n' && s.broken) ==> EmitsOne(s, c) == []
  {
  }

  // The second line break in a row.
  lemma ClosesBlock(p: string)
    requires Single(p) && EndsLine(p)
    ensures var s := Fed(FRESH, p);
      EmitsOne(s, '\n') == FrameOf(p[..|p| - 1]) && Feed(s, '\n') == FRESH == Fed(FRESH, "") && Single("")
  {
    hide Split, FrameOf, SplitLines, OfLines, Single;
    var block := p[..|p| - 1];
    assert p == block + ['\n'];
    ReadsLines(p);
    SplitLinesSnoc(block, '\n');
    assert (SplitLines(block) + [""])[..|SplitLines(block)|] == SplitLines(block);
    FrameIsEmitted(block);
    assert Single("") by {
      EmptyIsSingle();
    }
  }

  lemma EmptyIsSingle()
    ensures Single("")
  {
  }
}
