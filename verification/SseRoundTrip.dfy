/** What the server writes, the stream reader delivers, however the bytes arrive. */
module SseRoundTrip {
  import opened GoText
  import opened SseParse
  import opened SseStream

  // One event as the server writes it: an event line, one data line, a blank line.
  function Written(e: Event): string {
    "event: " + e.name + "\ndata: " + e.data + "\n\n"
  }

  function WrittenAll(es: seq<Event>): string {
    if es == [] then "" else WrittenAll(es[..|es| - 1]) + Written(es[|es| - 1])
  }

  // Names and JSON payloads hold no line breaks; a name is not padded with spaces.
  predicate Sendable(e: Event) {
    && '\r' !in e.name && '\n' !in e.name && TrimSpace(e.name) == e.name
    && '\r' !in e.data && '\n' !in e.data
  }

  // A line without breaks, closed by a blank line, is one piece.
  lemma {:induction false} SplitBlock(line: string, more: string)
    requires '\n' !in line
    ensures Split(line + "\n\n" + more) == [line] + Split(more)
  {
    var s := line + "\n\n" + more;
    if line == "" {
      assert s[2..] == more;
    } else {
      SplitBlock(line[1..], more);
      assert s[1..] == line[1..] + "\n\n" + more;
      assert [line[0]] + line[1..] == line;
    }
  }

  // A line break followed by more text does not close a piece.
  lemma {:induction false} SplitPast(line: string, more: string)
    requires '\n' !in line && more != "" && more[0] != '\n'
    ensures Split(line + "\n" + more) == [line + "\n" + Split(more)[0]] + Split(more)[1..]
  {
    hide Split;
    var s := line + "\n" + more;
    SplitStep(s);
    if line == "" {
      assert s[1..] == more && s[0] == '\n';
      assert ['\n'] + Split(more)[0] == line + "\n" + Split(more)[0];
    } else {
      SplitPast(line[1..], more);
      assert s[0] == line[0] && s[1..] == line[1..] + "\n" + more;
      assert [line[0]] + (line[1..] + "\n" + Split(more)[0]) == line + "\n" + Split(more)[0];
    }
  }

  lemma {:induction false} LinesPast(line: string, more: string)
    requires '\n' !in line
    ensures SplitLines(line) == [line]
    ensures SplitLines(line + "\n" + more) == [line] + SplitLines(more)
  {
    var s := line + "\n" + more;
    if line == "" {
      assert s[1..] == more;
    } else {
      LinesPast(line[1..], more);
      assert s[1..] == line[1..] + "\n" + more;
      assert [line[0]] + line[1..] == line;
    }
  }

  lemma {:induction false} TrimRightKeeps(s: string)
    requires s != "" && !IsSpace(s[0])
    ensures TrimRight(s) != ""
  {
    if IsSpace(s[|s| - 1]) {
      TrimRightKeeps(s[..|s| - 1]);
    }
  }

  lemma WrittenParts(e: Event)
    ensures Written(e) == ("event: " + e.name) + "\n" + (("data: " + e.data) + "\n\n" + "")
  {
  }

  // The block of a written event, without its blank line.
  function BlockOf(e: Event): string {
    ("event: " + e.name) + "\n" + ("data: " + e.data)
  }

  lemma {:induction false} WrittenSplits(e: Event)
    requires Sendable(e)
    ensures Normalize(Written(e)) == Written(e)
    ensures Split(Written(e)) == [BlockOf(e), ""]
  {
    hide Split, Normalize, TrimSpace;
    NormalizePlain(Written(e));
    WrittenParts(e);
    SplitBlock("data: " + e.data, "");
    SplitPast("event: " + e.name, ("data: " + e.data) + "\n\n" + "");
    SplitEmpty();
  }

  lemma {:induction false} BlockReads(e: Event)
    requires Sendable(e)
    ensures FrameOf(BlockOf(e)) == [e]
  {
    hide SplitLines, TrimRight;
    var block := BlockOf(e);
    assert block[0] == 'e' && TrimLeft(block) == block;
    TrimRightKeeps(block);
    var line1, line2 := "event: " + e.name, "data: " + e.data;
    LinesPast(line2, "");
    LinesPast(line1, line2);
    assert SplitLines(block) == [line1, line2];
    TwoLines(e, line1, line2);
    assert Join([e.data]) == e.data;
  }

  lemma TwoLines(e: Event, line1: string, line2: string)
    requires Sendable(e) && line1 == "event: " + e.name && line2 == "data: " + e.data
    ensures OfLines([line1, line2]) == Block(e.name, [e.data], true)
  {
    hide TrimRight;
    assert [line1, line2][..1] == [line1] && [line1][..0] == [];
    assert line1[6..] == " " + e.name && TrimLeft(" " + e.name) == TrimLeft(e.name) by {
      assert (" " + e.name)[1..] == e.name;
    }
    assert line2[5..] == " " + e.data && (" " + e.data)[1..] == e.data;
    assert line2[0] == 'd' && line1[0] == 'e';
    assert OfLines([line1]) == Block(e.name, [], true);
  }

  /** Everything written parses back to the events, with nothing left over. */
  lemma {:induction false} WrittenParses(es: seq<Event>)
    requires forall e :: e in es ==> Sendable(e)
    ensures Parse(WrittenAll(es)) == Parsed(es, "")
  {
    hide Normalize, Split, FrameOf, Written, Sendable;
    if es == [] {
      ParseEmpty();
    } else {
      var before, e := es[..|es| - 1], es[|es| - 1];
      WrittenParses(before);
      assert e in es;
      ParseAppend(WrittenAll(before), Written(e));
      assert "" + Written(e) == Written(e);
      WrittenSplits(e);
      BlockReads(e);
      assert [BlockOf(e), ""][..1] == [BlockOf(e)];
      assert FramesOf([BlockOf(e)]) == [e] by {
        assert [BlockOf(e)][..0] == [];
      }
    }
  }

  lemma {:induction false} WrittenIsClean(es: seq<Event>)
    requires forall e :: e in es ==> Sendable(e)
    ensures '\r' !in WrittenAll(es)
  {
    hide TrimSpace, Written, Sendable;
    if es != [] {
      WrittenIsClean(es[..|es| - 1]);
      var e := es[|es| - 1];
      assert e in es;
      WrittenNoCR(e);
      assert WrittenAll(es) == WrittenAll(es[..|es| - 1]) + Written(e);
    }
  }

  lemma WrittenNoCR(e: Event)
    requires Sendable(e)
    ensures '\r' !in Written(e)
  {
    var name, data := "event: " + e.name, "\ndata: " + e.data;
    assert Written(e) == name + data + "\n\n";
    assert '\r' !in name && '\r' !in data;
  }

  lemma {:induction false} NoCR(s: string)
    requires '\r' !in s
    ensures !Contains(s, "\r\r\n")
  {
    if s != "" {
      NoCR(s[1..]);
      assert s[0] in s && "\r\r\n"[0] == '\r';
    }
  }

  /** End to end: the events a server writes are delivered in order up to the first `end`, for
      every way the bytes are cut into reads. */
  lemma {:induction false} StreamDelivers(es: seq<Event>, chunks: seq<string>)
    requires forall e :: e in es ==> Sendable(e)
    requires Concat(chunks) == WrittenAll(es)
    ensures AllFrames(chunks) == es
    ensures CutEnd(AllFrames(chunks)) == CutEnd(es)
  {
    hide Sendable, Parse, WrittenAll, Contains;
    WrittenIsClean(es);
    NoCR(WrittenAll(es));
    ChunkingIsIrrelevant(chunks);
    WrittenParses(es);
    assert !Contains("", "\r\n") by { NoCRLFInEmpty(); }
    ParseAppend(WrittenAll(es), "\n\n");
    ParseEmpty();
    assert "" + "\n\n" == "\n\n";
  }

  lemma NoCRLFInEmpty()
    ensures !Contains("", "\r\n")
  {
  }

  /** The condition on chunking is needed: this body, cut after its "\r\r\n", loses the data its
      one event has when the body is read at once. */
  lemma {:induction false} ChunkingMatters()
    ensures Parse("event:\n\r\r\ndata:b\n\n") == Parsed([Event("", "b")], "")
    ensures Resume(Parse("event:\n\r\r\n"), "data:b\n\n") == Parsed([Event("", "")], "")
  {
    WholeBody();
    CutBody();
  }

  // Read at once: the "\r" left over keeps the blank line from closing the block.
  lemma {:induction false} WholeBody()
    ensures Parse("event:\n\r\r\ndata:b\n\n") == Parsed([Event("", "b")], "")
  {
    hide Normalize, Split, FrameOf;
    WholeSplits();
    WholeFrame();
    var block := "event:" + "\n" + ("\r" + "\n" + "data:b");
    assert [block, ""][..1] == [block] && [block][..0] == [];
    assert FramesOf([block]) == FrameOf(block);
  }

  lemma WholeFrame()
    ensures FrameOf("event:" + "\n" + ("\r" + "\n" + "data:b")) == [Event("", "b")]
  {
    hide SplitLines, TrimSpace;
    var block := "event:" + "\n" + ("\r" + "\n" + "data:b");
    LinesPast("data:b", "");
    LinesPast("\r", "data:b");
    LinesPast("event:", "\r" + "\n" + "data:b");
    assert SplitLines(block) == ["event:", "\r", "data:b"];
    ThreeLines();
    BlockNotBlank(block);
  }

  lemma {:induction false} WholeSplits()
    ensures Split(Normalize("event:\n\r\r\ndata:b\n\n")) == ["event:" + "\n" + ("\r" + "\n" + "data:b"), ""]
  {
    hide Normalize, Split;
    WholeNormalizes();
    var tail := "data:b\n\n";
    SplitBlock("data:b", "");
    SplitEmpty();
    assert tail == "data:b" + "\n\n" + "";
    SplitPast("\r", tail);
    SplitPast("event:", "\r" + "\n" + tail);
  }

  lemma WholeNormalizes()
    ensures Normalize("event:\n\r\r\ndata:b\n\n") == "event:" + "\n" + ("\r" + "\n" + "data:b\n\n")
  {
    hide Normalize;
    NormalizeBetween("event:\n", "data:b\n\n");
    assert "event:\n\r\r\ndata:b\n\n" == "event:\n" + "\r\r\n" + "data:b\n\n";
    assert "event:\n" == "event:" + "\n" && "\r\n" + "data:b\n\n" == "\r" + "\n" + "data:b\n\n";
  }

  // Only the second "\r" goes.
  lemma NormalizeBetween(front: string, back: string)
    requires '\r' !in front && '\r' !in back
    ensures Normalize(front + "\r\r\n" + back) == front + ("\r\n" + back)
  {
    hide Normalize;
    var crlf, tail := "\r\n" + back, "\r\r\n" + back;
    NormalizePlain(front);
    NormalizePlain(back);
    NormalizeStep(tail);
    NormalizeStep(crlf);
    assert tail[0] == '\r' && tail[1..] == crlf && crlf[2..] == back;
    assert ['\r'] + ("\n" + back) == crlf;
    NormalizeAppend(front, tail);
    assert front + "\r\r\n" + back == front + tail;
  }

  lemma BlockNotBlank(block: string)
    requires block != "" && block[0] == 'e'
    ensures TrimSpace(block) != ""
  {
    TrimRightKeeps(block);
  }

  lemma OneLine(line: string)
    ensures OfLines([line]) == OfLine(Block("", [], false), line)
  {
    assert [line][..0] == [];
  }

  lemma ThreeLines()
    ensures OfLines(["event:"]) == Block("", [], true)
    ensures OfLines(["data:b"]) == Block("", ["b"], false)
    ensures OfLines(["event:", "\r", "data:b"]) == Block("", ["b"], true)
  {
    OneLine("event:");
    OneLine("data:b");
    var two, three := ["event:", "\r"], ["event:", "\r", "data:b"];
    assert three[..2] == two && two[..1] == ["event:"];
    assert "event:"[6..] == "" && TrimSpace("") == "";
    assert "data:b"[5..] == "b" && "data:b"[0] == 'd' && "event:"[0] == 'e';
    assert !("event:" <= "data:b") && !(" " <= "b") by {
      assert "data:b"[0] != "event:"[0] && "b"[0] != " "[0];
    }
    assert "data:" <= "data:b" by {
      assert "data:b"[..5] == "data:";
    }
    assert OfLine(Block("", [], false), "data:b") == Block("", [] + ["b"], false);
    assert OfLines(two) == OfLine(OfLines(["event:"]), "\r") == OfLines(["event:"]);
    assert OfLines(three) == OfLine(OfLines(two), "data:b");
    assert "b"[0] == 'b' && [] + ["b"] == ["b"];
  }

  // Cut behind it: the next parse takes the "\r\n" for a line break and closes the block.
  lemma {:induction false} CutBody()
    ensures Resume(Parse("event:\n\r\r\n"), "data:b\n\n") == Parsed([Event("", "")], "")
  {
    hide Normalize, Split, FrameOf;
    FirstHalf();
    SecondHalf();
    CutFrames();
    assert ["event:", "data:b", ""][..2] == ["event:", "data:b"];
    assert ["event:", "data:b"][..1] == ["event:"] && ["event:"][..0] == [];
    assert FramesOf(["event:"]) == [Event("", "")];
    assert FramesOf(["event:", "data:b"]) == [Event("", "")];
  }

  lemma CutFrames()
    ensures FrameOf("event:") == [Event("", "")] && FrameOf("data:b") == []
  {
    hide SplitLines, TrimSpace;
    LinesPast("event:", "");
    LinesPast("data:b", "");
    ThreeLines();
    BlockNotBlank("event:");
  }

  lemma {:induction false} SecondHalf()
    ensures Split(Normalize("event:\n\r\n" + "data:b\n\n")) == ["event:", "data:b", ""]
  {
    hide Normalize, Split;
    var tail := "data:b\n\n";
    NormalizePlain("event:\n");
    NormalizePlain(tail);
    NormalizeAppend("event:\n", "\r\n" + tail);
    NormalizeStep("\r\n" + tail);
    assert ("\r\n" + tail)[2..] == tail;
    assert "event:\n\r\n" + tail == "event:\n" + ("\r\n" + tail);
    assert Normalize("event:\n\r\n" + tail) == "event:" + "\n\n" + tail;
    SplitBlock("data:b", "");
    SplitEmpty();
    assert tail == "data:b" + "\n\n" + "";
    SplitBlock("event:", tail);
  }

  lemma {:induction false} FirstHalf()
    ensures Parse("event:\n\r\r\n") == Parsed([], "event:\n\r\n")
  {
    hide Normalize, Split;
    NormalizePlain("event:\n");
    NormalizeAppend("event:\n", "\r\r\n");
    NormalizeStep("\r\r\n");
    NormalizeStep("\r\n");
    assert "\r\r\n"[1..] == "\r\n" && "\r\n"[2..] == "";
    NormalizeEmpty();
    assert "event:\n\r\r\n" == "event:\n" + "\r\r\n";
    assert Normalize("event:\n\r\r\n") == "event:" + "\n" + "\r\n";
    OneBreak();
    SplitPast("event:", "\r\n");
    assert "event:" + "\n" + "\r\n" == "event:\n\r\n";
    assert Split("event:" + "\n" + "\r\n") == ["event:\n\r\n"];
  }

  lemma OneBreak()
    ensures Split("\r\n") == ["\r\n"]
  {
    hide Split;
    SplitEmpty();
    SplitStep("\n");
    SplitStep("\r\n");
    assert "\r\n"[1..] == "\n" && "\n"[1..] == "";
    assert ['\n'] + "" == "\n" && ['\r'] + "\n" == "\r\n";
  }
}
