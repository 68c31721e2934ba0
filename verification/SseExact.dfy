/** Exactly when reading in chunks delivers the same events as parsing at once. */
module SseExact {
  import opened GoText
  import opened SseParse
  import opened SseReader
  import opened SseStream

  // Two readers that differ in nothing a later text could show: an event already being named on the
  // unfinished line hides the name before it.
  predicate Alike(s: Reader, t: Reader) {
    && s.line == t.line && s.block.data == t.block.data
    && ("event:" <= s.line || s.block == t.block)
  }

  /** The rest carried over means the same after its line endings are normalized once more: no frame is
      closed by that, and the reader remembers the same. */
  predicate Settled(rest: string) {
    Emits(FRESH, Normalize(rest)) == [] && Alike(Fed(FRESH, rest), Fed(FRESH, Normalize(rest)))
  }

  /** What these reads have delivered and carried over means the same as their text parsed at once: the
      same frames, with those the rest will close when it is normalized once more, and a reader that
      remembers the same. */
  ghost predicate SettledOn(chunks: seq<string>) {
    var whole, read := Parse(Concat(chunks)), Fold(chunks);
    && whole.frames == read.frames + Emits(FRESH, Normalize(read.rest))
    && Alike(Fed(FRESH, whole.rest), Fed(FRESH, Normalize(read.rest)))
  }

  // Frames of a text behind a finished one.
  lemma FramesBehind(done: string, blocks: seq<string>, more: string)
    requires Split(done) == blocks + [""]
    ensures var parts := Split(done + more); FramesOf(parts[..|parts| - 1]) == FramesOf(blocks) + Emits(FRESH, more)
  {
    hide Split, FramesOf, Fed, Emits;
    FinishedFirst(done, blocks, more);
    var rest := Split(more);
    assert (blocks + rest)[..|blocks + rest| - 1] == blocks + rest[..|rest| - 1];
    FramesAppend(blocks, rest[..|rest| - 1]);
    TextEmits(more);
  }

  lemma TextEmits(t: string)
    ensures var parts := Split(t); Emits(FRESH, t) == FramesOf(parts[..|parts| - 1])
  {
    hide Split, FramesOf, Emits;
    ReaderIsParser("", t);
    assert "" + t == t && Fed(FRESH, "") == FRESH;
  }

  // The finished blocks of a text, and its unfinished piece.
  lemma Halves(a: string) returns (done: string, blocks: seq<string>)
    ensures Normalize(a) == done + Parse(a).rest && Split(done) == blocks + [""] && Parse(a).frames == FramesOf(blocks)
    ensures EndsCR(a) <==> EndsCR(Parse(a).rest)
  {
    hide Normalize, Split, FramesOf;
    var na := Normalize(a);
    var parts := Split(na);
    var rest := parts[|parts| - 1];
    SplitLast(na);
    done, blocks := na[..|na| - |rest|], parts[..|parts| - 1];
    EndOfFinished(done, blocks);
    SameEnd(a, done, rest);
  }

  // At once, the rest is read on as it stands.
  lemma WholeReadsOn(a: string, b: string)
    ensures var rest := Parse(a).rest; var crlf := EndsCR(rest) && "\n" <= b;
      Parse(a + b).frames == Parse(a).frames + Emits(FRESH, Glue(rest, crlf, Normalize(b)))
  {
    var rest := Parse(a).rest;
    var done, blocks := Halves(a);
    hide Normalize, Split, FramesOf, Glue, Emits;
    NormalizeAppend(a, b);
    var crlf := EndsCR(rest) && "\n" <= b;
    GlueBehind(done, rest, crlf, Normalize(b));
    FramesBehind(done, blocks, Glue(rest, crlf, Normalize(b)));
  }

  // In steps, it is normalized again.
  lemma StepReadsOn(p: Parsed, b: string)
    ensures var crlf := EndsCR(p.rest) && "\n" <= b;
      && (crlf ==> Normalize(p.rest) != "")
      && Resume(p, b).frames == p.frames + Emits(FRESH, Glue(Normalize(p.rest), crlf, Normalize(b)))
  {
    hide Normalize, Split, FramesOf, Glue, Emits;
    NormalizeAppend(p.rest, b);
    NormalizeEnd(p.rest);
    TextEmits(Normalize(p.rest + b));
  }

  /** Both ways the frames of a come first; at once, the rest is read as it stands, in two steps
      normalized again. */
  lemma BothWays(a: string, b: string)
    ensures var rest := Parse(a).rest; var crlf := EndsCR(rest) && "\n" <= b;
      && Parse(a + b).frames == Parse(a).frames + Emits(FRESH, Glue(rest, crlf, Normalize(b)))
      && (crlf ==> Normalize(rest) != "")
      && Resume(Parse(a), b).frames == Parse(a).frames + Emits(FRESH, Glue(Normalize(rest), crlf, Normalize(b)))
  {
    hide Parse, Resume, Glue, Normalize, Emits;
    WholeReadsOn(a, b);
    StepReadsOn(Parse(a), b);
  }

  lemma EndOfFinished(done: string, blocks: seq<string>)
    requires Split(done) == blocks + [""]
    ensures done != "" ==> done[|done| - 1] == '\n'
  {
    hide Split;
    if done != "" {
      if blocks == [] {
        SplitSingle(done);
      } else {
        FinishedEnds(done);
      }
    }
  }

  lemma SameEnd(a: string, done: string, rest: string)
    requires Normalize(a) == done + rest && (done != "" ==> done[|done| - 1] == '\n')
    ensures EndsCR(a) <==> EndsCR(rest)
  {
    hide Normalize;
    NormalizeEnd(a);
    NormalizeEmpty();
    if rest != "" {
      assert (done + rest)[|done + rest| - 1] == rest[|rest| - 1];
    } else {
      assert done + rest == done;
    }
  }

  // What AlikeEmits carries along: a line has just ended for both, or for one of them in a block that
  // is empty all the same.
  ghost predicate InStep(s: Reader, t: Reader) {
    && Alike(s, t)
    && (s.broken || t.broken ==> s.line == "")
    && (s.broken == t.broken || s.block == t.block == NOTHING)
  }

  lemma {:induction false} InStepEmits(s: Reader, t: Reader, y: string)
    requires InStep(s, t)
    ensures Emits(s, y) == Emits(t, y)
    decreases |y|
  {
    hide OfLine;
    if y != "" {
      FeedKeepsInStep(s, t, y[0]);
      InStepEmits(Feed(s, y[0]), Feed(t, y[0]), y[1..]);
    }
  }

  lemma FeedKeepsInStep(s: Reader, t: Reader, c: char)
    requires InStep(s, t)
    ensures InStep(Feed(s, c), Feed(t, c)) && EmitsOne(s, c) == EmitsOne(t, c)
  {
    hide TrimSpace;
  }

  function LastLine(t: string): string {
    if t == "" then "" else if t[|t| - 1] == '\n' then "" else LastLine(t[..|t| - 1]) + [t[|t| - 1]]
  }

  lemma {:induction false} FedLine(t: string)
    ensures Fed(FRESH, t).line == LastLine(t)
  {
    hide OfLine;
    if t != "" {
      var front, c := t[..|t| - 1], t[|t| - 1];
      assert t == front + [c];
      FedLine(front);
      FedAppend(FRESH, front, [c]);
      FedOne(Fed(FRESH, front), c);
    }
  }

  lemma {:induction false} LastLineCons(c: char, t: string)
    ensures LastLine([c] + t) == if '\n' in t then LastLine(t) else if c == '\n' then t else [c] + t
  {
    if t == "" {
      assert [c] + t == [c] && [c][..0] == "";
    } else {
      var front, last := t[..|t| - 1], t[|t| - 1];
      assert ([c] + t)[..|[c] + t| - 1] == [c] + front && t == front + [last];
      LastLineCons(c, front);
      NoBreakIsLine(front);
    }
  }

  lemma {:induction false} NoBreakIsLine(t: string)
    ensures '\n' !in t ==> LastLine(t) == t
  {
    if t != "" {
      NoBreakIsLine(t[..|t| - 1]);
      assert t == t[..|t| - 1] + [t[|t| - 1]];
    }
  }

  lemma {:induction false} NormalizeKeepsLastLine(t: string)
    ensures LastLine(Normalize(t)) == LastLine(t) && ('\n' in Normalize(t) <==> '\n' in t)
  {
    hide LastLine;
    if t == "" {
    } else if StartsCRLF(t) {
      var more := t[2..];
      NormalizeKeepsLastLine(more);
      assert t == ['\r'] + (['\n'] + more) && Normalize(t) == ['\n'] + Normalize(more);
      LastLineCons('\n', more);
      LastLineCons('\r', ['\n'] + more);
      LastLineCons('\n', Normalize(more));
      NoBreakIsLine(more);
      NoBreakIsLine(Normalize(more));
    } else {
      var more := t[1..];
      NormalizeKeepsLastLine(more);
      assert t == [t[0]] + more && Normalize(t) == [t[0]] + Normalize(more);
      LastLineCons(t[0], more);
      LastLineCons(t[0], Normalize(more));
      NoBreakIsLine(more);
      NoBreakIsLine(Normalize(more));
    }
  }

  // The reader of the rest, and of the rest normalized, after the held back "\r" if it goes.
  function Behind(rest: string, crlf: bool): string
    requires crlf ==> rest != ""
  {
    if crlf then rest[..|rest| - 1] else rest
  }

  lemma BehindGlue(x: string, crlf: bool, y: string)
    requires crlf ==> x != ""
    ensures Glue(x, crlf, y) == Behind(x, crlf) + y
  {
  }

  // Without its last character the reader has only a shorter line.
  lemma ShorterLine(t: string)
    requires EndsCR(t)
    ensures var front := Fed(FRESH, t[..|t| - 1]); var s := Fed(FRESH, t);
      s.line == front.line + ['\r'] && s.block == front.block && Emits(FRESH, t) == Emits(FRESH, t[..|t| - 1])
  {
    hide Fed, Emits;
    var front := t[..|t| - 1];
    assert t == front + ['\r'];
    FedAppend(FRESH, front, ['\r']);
    FedOne(Fed(FRESH, front), '\r');
  }

  // Alike readers, seen behind a "\r" at the end of both texts.
  lemma AlikeBehind(u: string, v: string, crlf: bool)
    requires Alike(Fed(FRESH, u), Fed(FRESH, v)) && (crlf ==> EndsCR(u) && EndsCR(v))
    ensures var x, y := Behind(u, crlf), Behind(v, crlf);
      InStep(Fed(FRESH, x), Fed(FRESH, y)) && Emits(FRESH, x) == Emits(FRESH, u) && Emits(FRESH, y) == Emits(FRESH, v)
  {
    hide Fed, Emits, OfLine;
    var x, y := Behind(u, crlf), Behind(v, crlf);
    var s, t := Fed(FRESH, x), Fed(FRESH, y);
    if crlf {
      ShorterLine(u);
      ShorterLine(v);
      assert s.line == (s.line + ['\r'])[..|s.line|] && t.line == (t.line + ['\r'])[..|t.line|];
      assert |s.line| == |s.line + ['\r']| - 1 && |t.line| == |t.line + ['\r']| - 1;
    }
    EventBehind(s.line);
    StandsAfter(x);
    StandsAfter(y);
    FreshWhenUnbroken(x);
    FreshWhenUnbroken(y);
  }

  // Between lines the reader has either just ended one or seen nothing of the block.
  lemma FreshWhenUnbroken(t: string)
    ensures var s := Fed(FRESH, t); s.line == "" && !s.broken ==> s == FRESH
  {
    hide OfLine;
    if t != "" {
      var front, c := t[..|t| - 1], t[|t| - 1];
      assert t == front + [c];
      FedAppend(FRESH, front, [c]);
      FedOne(Fed(FRESH, front), c);
    }
  }

  lemma EventBehind(line: string)
    ensures "event:" <= line + ['\r'] <==> "event:" <= line
  {
    var longer := line + ['\r'];
    if |line| < 6 {
      assert longer[|line|] == '\r';
      assert forall k :: 0 <= k < 6 ==> "event:"[k] != '\r';
    } else {
      assert longer[..6] == line[..6];
    }
  }

  // The last line of a text, which both ways of reading keep.
  lemma {:induction false} LastLineBehind(s: string, t: string, more: string)
    requires LastLine(s) == LastLine(t)
    ensures LastLine(s + more) == LastLine(t + more)
  {
    if more == "" {
      assert s + more == s && t + more == t;
    } else {
      var front, c := more[..|more| - 1], more[|more| - 1];
      LastLineBehind(s, t, front);
      assert s + more == (s + front) + [c] && t + more == (t + front) + [c];
      assert ((s + front) + [c])[..|s + front|] == s + front && ((t + front) + [c])[..|t + front|] == t + front;
    }
  }

  lemma LastLineEnds(t: string)
    ensures EndsCR(LastLine(t)) <==> EndsCR(t)
  {
  }

  lemma ParseKeepsLastLine(a: string)
    ensures LastLine(Parse(a).rest) == LastLine(a)
  {
    hide Normalize, Split, FramesOf;
    var rest := Parse(a).rest;
    var done, blocks := Halves(a);
    EndOfFinished(done, blocks);
    NormalizeKeepsLastLine(a);
    LastLineBehind(done, "", rest);
    assert "" + rest == rest;
  }

  lemma {:induction false} FoldKeepsLastLine(chunks: seq<string>)
    ensures LastLine(Fold(chunks).rest) == LastLine(Concat(chunks))
  {
    hide Parse, LastLine;
    if chunks != [] {
      var before, chunk := chunks[..|chunks| - 1], chunks[|chunks| - 1];
      FoldKeepsLastLine(before);
      LastLineBehind(Fold(before).rest, Concat(before), chunk);
      if chunk == "" {
        assert Concat(before) + chunk == Concat(before);
      } else {
        ParseKeepsLastLine(Fold(before).rest + chunk);
      }
    }
  }

  // Both rests end alike.
  lemma RestsEndAlike(chunks: seq<string>)
    ensures LastLine(Parse(Concat(chunks)).rest) == LastLine(Fold(chunks).rest)
    ensures EndsCR(Parse(Concat(chunks)).rest) <==> EndsCR(Fold(chunks).rest)
  {
    hide Parse, Fold, LastLine, EndsCR;
    FoldKeepsLastLine(chunks);
    ParseKeepsLastLine(Concat(chunks));
    LastLineEnds(Parse(Concat(chunks)).rest);
    LastLineEnds(Fold(chunks).rest);
  }

  /** Settled reads go on as the whole text does, whatever follows. */
  lemma SettledDeliversTheSame(chunks: seq<string>, b: string)
    requires SettledOn(chunks)
    ensures Parse(Concat(chunks) + b).frames == Resume(Fold(chunks), b).frames
  {
    hide Parse, Normalize, Emits, Fed, Fold, Resume, Behind, InStep, Glue, LastLine, Alike;
    var a, read := Concat(chunks), Fold(chunks);
    var u, v := Parse(a).rest, Normalize(read.rest);
    var crlf, y := EndsCR(u) && "\n" <= b, Normalize(b);
    RestsEndAlike(chunks);
    WholeReadsOn(a, b);
    StepReadsOn(read, b);
    NormalizeEnd(read.rest);
    RestIsRead(a);
    AlikeBehind(u, v, crlf);
    BehindGlue(u, crlf, y);
    BehindGlue(v, crlf, y);
    var x, n := Behind(u, crlf), Behind(v, crlf);
    FedAppend(FRESH, x, y);
    FedAppend(FRESH, n, y);
    InStepEmits(Fed(FRESH, x), Fed(FRESH, n), y);
  }

  lemma RestIsRead(a: string)
    ensures Emits(FRESH, Parse(a).rest) == []
  {
    hide Parse, Emits, Single;
    RestIsSingle(a);
    ReadsLines(Parse(a).rest);
  }

  lemma RestIsSingle(a: string)
    ensures Single(Parse(a).rest)
  {
    hide Normalize, Split, FramesOf;
    LastIsSingle(Normalize(a));
  }

  // Probes: a text that ends the unfinished line as a line of its own making.
  lemma {:induction false} LineEnds(s: Reader, line: string, more: string)
    requires line != "" && '\n' !in line
    ensures Emits(s, line + "\n" + more) == Emits(Reader(OfLine(s.block, s.line + line), "", true), more)
    decreases |line|
  {
    hide OfLine;
    var t := line + "\n" + more;
    assert t[0] == line[0] && t[1..] == line[1..] + "\n" + more;
    var next := Feed(s, line[0]);
    if line[1..] == "" {
      assert t[1..] == "\n" + more && t[1..][1..] == more && line == [line[0]];
    } else {
      LineEnds(next, line[1..], more);
      assert s.line + line == next.line + line[1..];
    }
  }

  // Closing the block right after the unfinished line, or after one or two lines more.
  lemma ProbesEmit(s: Reader, line: string, next: string)
    requires '\n' !in line && '\n' !in next && line != "" && next != ""
    ensures var b := OfLine(s.block, s.line + "x");
      && Emits(s, "x" + "\n" + "\n") == FrameOut(b)
      && Emits(s, "x" + "\n" + (line + "\n" + "\n")) == FrameOut(OfLine(b, line))
      && Emits(s, "x" + "\n" + (line + "\n" + (next + "\n" + "\n"))) == FrameOut(OfLine(OfLine(b, line), next))
  {
    hide OfLine, FrameOut;
    var b := OfLine(s.block, s.line + "x");
    var one, two := Reader(b, "", true), Reader(OfLine(b, line), "", true);
    LineEnds(s, "x", "\n");
    LineEnds(s, "x", line + "\n" + "\n");
    LineEnds(one, line, "\n");
    LineEnds(s, "x", line + "\n" + (next + "\n" + "\n"));
    LineEnds(one, line, next + "\n" + "\n");
    LineEnds(two, next, "\n");
    assert "" + line == line && "" + next == next;
    ClosingBreak(one);
    ClosingBreak(two);
    ClosingBreak(Reader(OfLine(OfLine(b, line), next), "", true));
  }

  lemma ClosingBreak(s: Reader)
    requires s.broken
    ensures Emits(s, "\n") == FrameOut(s.block)
  {
    hide FrameOut;
    assert "\n"[1..] == "";
  }

  // One probe: a text that holds no "\r" and does not begin with a line break.
  lemma ProbeAgrees(chunks: seq<string>, b: string)
    requires b != "" && b[0] != '\n' && '\r' !in b
    requires Parse(Concat(chunks) + b).frames == Resume(Fold(chunks), b).frames
    ensures var whole, read := Parse(Concat(chunks)), Fold(chunks);
      var v := Normalize(read.rest);
      whole.frames + Emits(Fed(FRESH, whole.rest), b) == read.frames + Emits(FRESH, v) + Emits(Fed(FRESH, v), b)
  {
    hide Parse, Normalize, Emits, Fed, Fold, Resume;
    var a, read := Concat(chunks), Fold(chunks);
    var u, v := Parse(a).rest, Normalize(read.rest);
    WholeReadsOn(a, b);
    StepReadsOn(read, b);
    NormalizePlain(b);
    RestIsRead(a);
    FedAppend(FRESH, u, b);
    FedAppend(FRESH, v, b);
    assert !("\n" <= b);
    assert [] + Emits(Fed(FRESH, u), b) == Emits(Fed(FRESH, u), b);
    assert read.frames + (Emits(FRESH, v) + Emits(Fed(FRESH, v), b)) ==
      read.frames + Emits(FRESH, v) + Emits(Fed(FRESH, v), b);
  }

  // A character more on the line emits nothing: so far the frames are the same.
  lemma SameFramesSoFar(chunks: seq<string>)
    requires Parse(Concat(chunks) + "x").frames == Resume(Fold(chunks), "x").frames
    ensures Parse(Concat(chunks)).frames == Fold(chunks).frames + Emits(FRESH, Normalize(Fold(chunks).rest))
  {
    hide Parse, Normalize, Fed, Fold, Resume, Emits;
    var u, v := Parse(Concat(chunks)).rest, Normalize(Fold(chunks).rest);
    ProbeAgrees(chunks, "x");
    assert "x" == ['x'];
    FedOne(Fed(FRESH, u), 'x');
    FedOne(Fed(FRESH, v), 'x');
    assert forall f: seq<Event> :: f + [] == f;
  }

  lemma {:induction false} SplitLinesMore(q: string, line: string)
    requires '\n' !in line
    ensures var lines := SplitLines(q); var n := |lines| - 1;
      SplitLines(q + line) == lines[..n] + [lines[n] + line]
  {
    hide SplitLines;
    var lines, n := SplitLines(q), |SplitLines(q)| - 1;
    if line == "" {
      assert q + line == q && lines[n] + line == lines[n];
    } else {
      var front, c := line[..|line| - 1], line[|line| - 1];
      assert line == front + [c] && q + line == (q + front) + [c];
      SplitLinesMore(q, front);
      SplitLinesSnoc(q + front, c);
      assert (lines[n] + front) + [c] == lines[n] + line;
    }
  }

  // Lines without breaks are what their joined text splits into.
  lemma {:induction false} JoinSplits(lines: seq<string>)
    requires lines != [] && forall line :: line in lines ==> '\n' !in line
    ensures SplitLines(Join(lines)) == lines
  {
    hide SplitLines;
    LinesStep("");
    var n := |lines| - 1;
    var front, last := lines[..n], lines[n];
    if n == 0 {
      SplitLinesMore("", last);
      assert "" + last == last;
    } else {
      assert forall line :: line in front ==> line in lines;
      JoinSplits(front);
      SplitLinesSnoc(Join(front), '\n');
      assert Join(front) + "\n" == Join(front) + ['\n'];
      SplitLinesMore(Join(front) + "\n", last);
      assert "" + last == last && (front + [""])[..n] == front && front + [last] == lines;
    }
  }

  lemma JoinTellsApart(d: seq<string>, e: seq<string>, last: string)
    requires '\n' !in last && (forall line :: line in d ==> '\n' !in line) &&
      (forall line :: line in e ==> '\n' !in line)
    requires Join(d + [last]) == Join(e + [last])
    ensures d == e
  {
    hide SplitLines, Join;
    JoinSplits(d + [last]);
    JoinSplits(e + [last]);
    assert d == (d + [last])[..|d|] && e == (e + [last])[..|e|];
  }

  lemma DataLine(b: Block)
    ensures OfLine(b, "data:1") == b.(data := b.data + ["1"])
    ensures OfLine(b, "event:e").data == b.data && OfLine(b, "event:e").haveEvent
    ensures forall c: Block :: OfLine(b, "event:e").event == OfLine(c, "event:e").event
  {
    hide TrimSpace;
    assert "data:1"[0] == 'd' && "event:"[0] == 'e' && "data:1"[5..] == "1" && "1"[0] != ' ' && " "[0] == ' ';
    assert "event:" <= "event:e";
  }

  // What the probes say of two readers.
  ghost predicate Agree(b: Block, c: Block) {
    && FrameOut(b) == FrameOut(c)
    && FrameOut(OfLine(OfLine(b, "event:e"), "data:1")) == FrameOut(OfLine(OfLine(c, "event:e"), "data:1"))
  }

  ghost predicate Unbroken(b: Block) { forall d :: d in b.data ==> '\n' !in d }

  lemma AgreeingAreTheSame(b: Block, c: Block)
    requires Agree(b, c) && Unbroken(b) && Unbroken(c)
    ensures b.data == c.data && b.haveEvent == c.haveEvent && (b.haveEvent ==> b.event == c.event)
  {
    hide OfLine, Join;
    DataLine(b);
    DataLine(c);
    DataLine(OfLine(b, "event:e"));
    DataLine(OfLine(c, "event:e"));
    var x, y := OfLine(OfLine(b, "event:e"), "data:1"), OfLine(OfLine(c, "event:e"), "data:1");
    assert FrameOut(x)[0] == FrameOut(y)[0] && x.data == b.data + ["1"] && y.data == c.data + ["1"];
    assert b.haveEvent <==> |FrameOut(b)| == 1;
    assert b.haveEvent ==> FrameOut(b)[0] == FrameOut(c)[0];
    JoinTellsApart(b.data, c.data, "1");
  }

  // The same line at the end of two blocks hides at most the event's name.
  lemma LineHidesTheEvent(b: Block, c: Block, line: string)
    requires OfLine(b, line).data == OfLine(c, line).data
    ensures b.data == c.data
    ensures !("event:" <= line) ==>
      OfLine(b, line).haveEvent == b.haveEvent && OfLine(b, line).event == b.event
  {
    hide TrimSpace;
    if !("event:" <= line) && "data:" <= line {
      var d := if " " <= line[5..] then line[5..][1..] else line[5..];
      assert b.data == (b.data + [d])[..|b.data + [d]| - 1] && c.data == (c.data + [d])[..|c.data + [d]| - 1];
    }
  }

  lemma AgreeingIsAlike(s: Reader, t: Reader)
    requires s.line == t.line && '\n' !in s.line && Unbroken(s.block) && Unbroken(t.block)
    requires (!s.block.haveEvent ==> s.block.event == "") && (!t.block.haveEvent ==> t.block.event == "")
    requires Agree(OfLine(s.block, s.line + "x"), OfLine(t.block, t.line + "x"))
    ensures Alike(s, t)
  {
    hide OfLine, Agree, Unbroken;
    var line := s.line + "x";
    var b, c := OfLine(s.block, line), OfLine(t.block, line);
    LineKeepsUnbroken(s.block, line);
    LineKeepsUnbroken(t.block, line);
    AgreeingAreTheSame(b, c);
    LineHidesTheEvent(s.block, t.block, line);
    LineHidesTheEvent(t.block, s.block, line);
    XMakesNoEvent(s.line);
  }

  lemma LineKeepsUnbroken(b: Block, line: string)
    requires Unbroken(b) && '\n' !in line
    ensures Unbroken(OfLine(b, line))
  {
    hide TrimSpace;
  }

  lemma XMakesNoEvent(line: string)
    ensures "event:" <= line + "x" <==> "event:" <= line
  {
    var longer := line + "x";
    if |line| < 6 {
      assert longer[|line|] == 'x';
      assert forall k :: 0 <= k < 6 ==> "event:"[k] != 'x';
    } else {
      assert longer[..6] == line[..6];
    }
  }

  lemma AgreeingSettles(chunks: seq<string>)
    requires forall b :: b != "" ==> Parse(Concat(chunks) + b).frames == Resume(Fold(chunks), b).frames
    ensures SettledOn(chunks)
  {
    hide Parse, Normalize, Emits, Fed, Fold, Resume, OfLine, FrameOut, LastLine;
    var u, v := Parse(Concat(chunks)).rest, Normalize(Fold(chunks).rest);
    var s, t := Fed(FRESH, u), Fed(FRESH, v);
    SameFramesSoFar(chunks);
    var close, named := "x" + "\n" + "\n", "x" + "\n" + ("event:e" + "\n" + ("data:1" + "\n" + "\n"));
    ProbeAgrees(chunks, close);
    ProbeAgrees(chunks, named);
    ProbesEmit(s, "event:e", "data:1");
    ProbesEmit(t, "event:e", "data:1");
    Behead(Parse(Concat(chunks)).frames, Emits(s, close), Emits(t, close));
    Behead(Parse(Concat(chunks)).frames, Emits(s, named), Emits(t, named));
    StandsAfter(u);
    StandsAfter(v);
    FedLine(u);
    FedLine(v);
    RestsEndAlike(chunks);
    NormalizeKeepsLastLine(Fold(chunks).rest);
    AgreeingIsAlike(s, t);
  }

  lemma Behead(f: seq<Event>, x: seq<Event>, y: seq<Event>)
    requires f + x == f + y
    ensures x == y
  {
    assert x == (f + x)[|f|..] && y == (f + y)[|f|..];
  }

  lemma FoldOneMore(chunks: seq<string>, b: string)
    requires b != ""
    ensures Fold(chunks + [b]) == Resume(Fold(chunks), b)
  {
    assert (chunks + [b])[..|chunks|] == chunks;
  }

  // The reads deliver, with whatever is read next, the events of the whole text.
  ghost predicate ReadsOn(chunks: seq<string>) {
    forall b :: b != "" ==> Fold(chunks + [b]).frames == Parse(Concat(chunks) + b).frames
  }

  /** Any number of reads deliver, with whatever is read next, the events of the whole text, exactly when
      they are settled. */
  lemma ReadsResumeExactly(chunks: seq<string>)
    ensures ReadsOn(chunks) <==> SettledOn(chunks)
  {
    hide Parse, SettledOn, Resume, Fold;
    forall b | b != ""
      ensures Fold(chunks + [b]) == Resume(Fold(chunks), b)
    {
      FoldOneMore(chunks, b);
    }
    if SettledOn(chunks) {
      forall b | b != ""
        ensures Fold(chunks + [b]).frames == Parse(Concat(chunks) + b).frames
      {
        SettledDeliversTheSame(chunks, b);
      }
    } else if ReadsOn(chunks) {
      AgreeingSettles(chunks);
      assert false;
    }
  }

  lemma FoldOne(a: string)
    ensures Fold([a]) == Parse(a) && Concat([a]) == a
  {
    hide Parse;
    assert [a][..0] == [] && "" + a == a;
    ParseEmpty();
  }

  /** After one read, exactly when the rest is settled. */
  lemma EventsResumeExactly(a: string)
    ensures (forall b :: b != "" ==> Parse(a + b).frames == Resume(Parse(a), b).frames) <==> Settled(Parse(a).rest)
  {
    hide Parse, Resume, Fold, Concat, Emits, Fed, Normalize, Alike;
    FoldOne(a);
    RestIsRead(a);
    if Settled(Parse(a).rest) {
      forall b | b != ""
        ensures Parse(a + b).frames == Resume(Parse(a), b).frames
      {
        SettledDeliversTheSame([a], b);
      }
    } else if forall b :: b != "" ==> Parse(a + b).frames == Resume(Parse(a), b).frames {
      AgreeingSettles([a]);
      NothingAdded(Parse(a).frames, Emits(FRESH, Normalize(Parse(a).rest)));
      assert false;
    }
  }

  lemma NothingAdded(f: seq<Event>, x: seq<Event>)
    requires f == f + x
    ensures x == []
  {
    assert |f + x| == |f| + |x|;
  }

  /** A stream that ends behind settled reads has delivered what its whole body delivers. */
  lemma SettledDrains(chunks: seq<string>)
    requires SettledOn(chunks)
    ensures AllFrames(chunks) == Parse(Concat(chunks) + "\n\n").frames
  {
    hide Parse, SettledOn, Concat, Fold;
    SettledDeliversTheSame(chunks, "\n\n");
    ParseEmpty();
    assert "" + "\n\n" == "\n\n";
  }

  // However the text is cut into reads.
  ghost predicate AlwaysSettled(a: string) { forall chunks :: Concat(chunks) == a ==> SettledOn(chunks) }

  /** A body delivers the events of the whole under every cutting of it, whatever follows it, exactly when
      every cutting leaves it settled; and then at its end too. */
  lemma EveryCuttingExactly(a: string)
    ensures (forall chunks :: Concat(chunks) == a ==> ReadsOn(chunks)) <==> AlwaysSettled(a)
    ensures AlwaysSettled(a) ==>
      forall chunks :: Concat(chunks) == a ==> AllFrames(chunks) == Parse(a + "\n\n").frames
    ensures !Contains(a, "\r\r\n") ==> AlwaysSettled(a)
  {
    hide Parse, SettledOn, Concat, Fold, AllFrames, Contains, ReadsOn;
    forall chunks | Concat(chunks) == a
      ensures ReadsOn(chunks) <==> SettledOn(chunks)
      ensures SettledOn(chunks) ==> AllFrames(chunks) == Parse(a + "\n\n").frames
      ensures !Contains(a, "\r\r\n") ==> SettledOn(chunks)
    {
      ReadsResumeExactly(chunks);
      if SettledOn(chunks) {
        SettledDrains(chunks);
      }
      if !Contains(a, "\r\r\n") {
        PlainIsSettled(chunks);
      }
    }
  }

  lemma PlainIsSettled(chunks: seq<string>)
    requires !Contains(Concat(chunks), "\r\r\n")
    ensures SettledOn(chunks)
  {
    hide Parse, Contains, Concat, Fold, Emits, Fed, Normalize;
    FoldIsParse(chunks);
    CleanRest(Concat(chunks));
    NormalizeLength(Parse(Concat(chunks)).rest);
    RestIsRead(Concat(chunks));
  }

  // One more character, read at once.
  lemma RestGrows(a: string)
    ensures Parse(a + "x").rest == Parse(a).rest + "x"
  {
    var rest := Parse(a).rest;
    var done, blocks := Halves(a);
    hide Normalize, Split, FramesOf, Single;
    NormalizeAppend(a, "x");
    NormalizePlain("x");
    assert "x"[0] != "\n"[0];
    assert Normalize(a + "x") == (done + rest) + "x" == done + (rest + "x");
    FinishedFirst(done, blocks, rest + "x");
    assert Single(rest) by {
      RestIsSingle(a);
    }
    SingleSnoc(rest, 'x');
    assert rest + "x" == rest + ['x'];
    SingleIs(rest + "x");
    assert Split(Normalize(a + "x")) == blocks + [rest + "x"];
  }

  /** Parsing in two steps gives all that parsing at once gives, the new rest included, for every text
      that may follow, exactly when the rest carried over holds no "\r\n". */
  lemma ResumeExactly(a: string)
    ensures (forall b :: b != "" ==> Parse(a + b) == Resume(Parse(a), b)) <==> !Contains(Parse(a).rest, "\r\n")
  {
    var rest := Parse(a).rest;
    if Contains(rest, "\r\n") {
      hide Parse, Contains;
      RestGrows(a);
      RestIsNoLonger(rest);
      assert Parse(a + "x") != Resume(Parse(a), "x");
    } else {
      forall b | b != ""
        ensures Parse(a + b) == Resume(Parse(a), b)
      {
        ParseAppend(a, b);
      }
    }
  }

  // The same character after the rest is normalized again.
  lemma RestIsNoLonger(rest: string)
    requires Contains(rest, "\r\n")
    ensures |Parse(rest + "x").rest| < |rest + "x"|
  {
    hide Normalize, Split, FramesOf, Contains;
    NormalizeLength(rest);
    NormalizeAppend(rest, "x");
    NormalizePlain("x");
    assert "x"[0] != "\n"[0];
    assert Normalize(rest + "x") == Normalize(rest) + "x";
    SplitLast(Normalize(rest + "x"));
  }
}
