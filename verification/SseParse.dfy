/** The incremental event-stream parser: complete frames of a buffer and the unfinished rest,
    which the caller carries into the next read. Text is a sequence of bytes. */
module SseParse {
  import opened GoText

  datatype Event = Event(name: string, data: string)
  datatype Parsed = Parsed(frames: seq<Event>, rest: string)

  // "\r\n" becomes "\n", scanning left to right.
  function Normalize(s: string): string {
    if s == "" then ""
    else if |s| >= 2 && s[0] == '\r' && s[1] == '\n' then "\n" + Normalize(s[2..])
    else [s[0]] + Normalize(s[1..])
  }

  // The pieces between blank lines ("\n\n"), the last one unfinished.
  function Split(s: string): (parts: seq<string>)
    ensures parts != []
  {
    if s == "" then [""]
    else if |s| >= 2 && s[0] == '\n' && s[1] == '\n' then [""] + Split(s[2..])
    else
      var parts := Split(s[1..]);
      [[s[0]] + parts[0]] + parts[1..]
  }

  function SplitLines(s: string): (lines: seq<string>)
    ensures lines != []
  {
    if s == "" then [""]
    else if s[0] == '\n' then [""] + SplitLines(s[1..])
    else
      var lines := SplitLines(s[1..]);
      [[s[0]] + lines[0]] + lines[1..]
  }

  function Join(lines: seq<string>): string {
    if lines == [] then ""
    else if |lines| == 1 then lines[0]
    else Join(lines[..|lines| - 1]) + "\n" + lines[|lines| - 1]
  }

  // What the lines of one block have set so far.
  datatype Block = Block(event: string, data: seq<string>, haveEvent: bool)

  function OfLine(b: Block, line: string): Block {
    if "event:" <= line then b.(event := TrimSpace(line[6..]), haveEvent := true)
    else if "data:" <= line then
      var d := line[5..];
      b.(data := b.data + [if " " <= d then d[1..] else d])
    else b
  }

  function OfLines(lines: seq<string>): Block {
    if lines == [] then Block("", [], false)
    else OfLine(OfLines(lines[..|lines| - 1]), lines[|lines| - 1])
  }

  // The frame of one block, if it has an event line.
  function FrameOf(block: string): seq<Event> {
    if TrimSpace(block) == "" then []
    else
      var b := OfLines(SplitLines(block));
      if b.haveEvent then [Event(b.event, Join(b.data))] else []
  }

  function FramesOf(blocks: seq<string>): seq<Event> {
    if blocks == [] then [] else FramesOf(blocks[..|blocks| - 1]) + FrameOf(blocks[|blocks| - 1])
  }

  function Parse(buffer: string): Parsed {
    var parts := Split(Normalize(buffer));
    Parsed(FramesOf(parts[..|parts| - 1]), parts[|parts| - 1])
  }

  method ParseSSE(buffer: string) returns (frames: seq<Event>, rest: string)
    ensures Parsed(frames, rest) == Parse(buffer)
  {
    hide Normalize, Split, FrameOf;
    var normalized := Normalize(buffer);
    var parts := Split(normalized);
    rest := parts[|parts| - 1];
    parts := parts[..|parts| - 1];
    frames := [];
    for k := 0 to |parts|
      invariant frames == FramesOf(parts[..k])
    {
      assert parts[..k + 1][..k] == parts[..k];
      var frame := ParseBlock(parts[k]);
      frames := frames + frame;
    }
    assert parts[..|parts|] == parts;
  }

  method ParseBlock(block: string) returns (frame: seq<Event>)
    ensures frame == FrameOf(block)
  {
    hide SplitLines, OfLine, Join;
    if TrimSpace(block) == "" {
      return [];
    }
    var b := ParseLines(SplitLines(block));
    if !b.haveEvent {
      return [];
    }
    return [Event(b.event, Join(b.data))];
  }

  method ParseLines(lines: seq<string>) returns (b: Block)
    ensures b == OfLines(lines)
  {
    hide TrimSpace;
    var event := "";
    var data: seq<string> := [];
    var haveEvent := false;
    for k := 0 to |lines|
      invariant Block(event, data, haveEvent) == OfLines(lines[..k])
    {
      var line := lines[k];
      assert lines[..k + 1][..k] == lines[..k];
      if "event:" <= line {
        event := TrimSpace(line[6..]);
        haveEvent := true;
      } else if "data:" <= line {
        var d := line[5..];
        if " " <= d {
          d := d[1..];
        }
        data := data + [d];
      }
    }
    assert lines[..|lines|] == lines;
    return Block(event, data, haveEvent);
  }

  /** A line names the event or adds a line of data, an empty one too, without one leading space; every
      other line is skipped. */
  lemma LineSets(b: Block, value: string, other: string)
    requires |other| < 5 || (other[..5] != "data:" && (|other| < 6 || other[..6] != "event:"))
    ensures OfLine(b, "event:" + value) == Block(TrimSpace(value), b.data, true)
    ensures OfLine(b, "data:" + value) == Block(b.event, b.data + [value], b.haveEvent) ||
      (value != "" && value[0] == ' ')
    ensures OfLine(b, "data: " + value) == Block(b.event, b.data + [value], b.haveEvent)
    ensures OfLine(b, other) == b
  {
    hide TrimSpace;
    assert ("event:" + value)[6..] == value && ("data:" + value)[5..] == value;
    assert ("data: " + value)[5..] == " " + value && (" " + value)[1..] == value;
    assert "data:"[0] == 'd' && "event:"[0] == 'e';
    assert ("data:" + value)[0] == 'd' && ("data: " + value)[0] == 'd';
    assert ("data: " + value)[..5] == "data:";
  }

  // s contains t.
  predicate Contains(s: string, t: string) {
    t <= s || (s != "" && Contains(s[1..], t))
  }

  predicate StartsCRLF(s: string) { |s| >= 2 && s[0] == '\r' && s[1] == '\n' }
  predicate StartsBlank(s: string) { |s| >= 2 && s[0] == '\n' && s[1] == '\n' }
  predicate EndsCR(s: string) { s != "" && s[|s| - 1] == '\r' }

  lemma NormalizeStep(s: string)
    requires s != ""
    ensures Normalize(s) == if StartsCRLF(s) then "\n" + Normalize(s[2..]) else [s[0]] + Normalize(s[1..])
  {
  }

  lemma SplitStep(s: string)
    requires s != ""
    ensures StartsBlank(s) ==> Split(s) == [""] + Split(s[2..])
    ensures !StartsBlank(s) ==> Split(s) == [[s[0]] + Split(s[1..])[0]] + Split(s[1..])[1..]
  {
  }

  // Normalizing shortens exactly the texts that contain "\r\n".
  lemma {:induction false} NormalizeLength(s: string)
    ensures |Normalize(s)| <= |s|
    ensures Contains(s, "\r\n") ==> |Normalize(s)| < |s|
    ensures !Contains(s, "\r\n") ==> Normalize(s) == s
  {
    if s != "" {
      if StartsCRLF(s) {
        NormalizeLength(s[2..]);
      } else {
        NormalizeLength(s[1..]);
      }
    }
  }

  // Normalizing keeps a "\r" at the end, where its "\n" may still come.
  lemma {:induction false} NormalizeEnd(a: string)
    ensures EndsCR(Normalize(a)) <==> EndsCR(a)
    ensures Normalize(a) == "" <==> a == ""
  {
    hide Normalize;
    if a == "" {
      assert Normalize(a) == "" by { NormalizeEmpty(); }
    } else {
      NormalizeStep(a);
      NormalizeEnd(if StartsCRLF(a) then a[2..] else a[1..]);
    }
  }

  lemma {:induction false} NormalizePlain(s: string)
    requires '\r' !in s
    ensures Normalize(s) == s
  {
    if s != "" {
      NormalizePlain(s[1..]);
      assert s == [s[0]] + s[1..];
    }
  }

  lemma NormalizeEmpty()
    ensures Normalize("") == ""
  {
  }

  // A chunk boundary can split only a "\r\n": then the held back "\r" is dropped.
  function Glue(x: string, splitCRLF: bool, y: string): string
    requires splitCRLF ==> x != ""
  {
    if splitCRLF then x[..|x| - 1] + y else x + y
  }

  lemma GlueCons(p: string, x: string, splitCRLF: bool, y: string)
    requires x != ""
    ensures Glue(p + x, splitCRLF, y) == p + Glue(x, splitCRLF, y)
  {
    assert (p + x)[..|p + x| - 1] == p + x[..|x| - 1];
  }

  lemma NormalizeOne(c: char, b: string)
    ensures Normalize([c]) == [c]
    ensures Normalize([c] + b) == Glue([c], c == '\r' && "\n" <= b, Normalize(b))
  {
    assert [c][1..] == "" && ([c] + b)[1..] == b;
    if "\n" <= b {
      assert ([c] + b)[2..] == b[1..];
    }
  }

  lemma {:induction false} NormalizeAppend(a: string, b: string)
    ensures Normalize(a) == "" <==> a == ""
    ensures Normalize(a + b) == Glue(Normalize(a), EndsCR(a) && "\n" <= b, Normalize(b))
  {
    hide Normalize, Glue;
    NormalizeEmpty();
    NormalizeEnd(a);
    var crlf := EndsCR(a) && "\n" <= b;
    if a == "" {
      assert a + b == b;
      assert Glue("", false, Normalize(b)) == Normalize(b) by { GlueEmpty(Normalize(b)); }
    } else if StartsCRLF(a) {
      NormalizeStep(a);
      NormalizeStep(a + b);
      assert (a + b)[2..] == a[2..] + b;
      NormalizeAppend(a[2..], b);
      if a[2..] == "" {
        assert Normalize(a) == "\n";
        GlueLine(Normalize(b));
      } else {
        GlueCons("\n", Normalize(a[2..]), crlf, Normalize(b));
      }
    } else if |a| == 1 {
      assert a == [a[0]];
      NormalizeOne(a[0], b);
    } else {
      NormalizeStep(a);
      NormalizeStep(a + b);
      assert (a + b)[1..] == a[1..] + b;
      NormalizeAppend(a[1..], b);
      GlueCons([a[0]], Normalize(a[1..]), crlf, Normalize(b));
    }
  }

  lemma GlueEmpty(y: string)
    ensures Glue("", false, y) == y
  {
  }

  lemma GlueLine(y: string)
    ensures Glue("\n", false, y) == "\n" + Glue("", false, y)
  {
  }

  // Splitting continues from the unfinished piece.
  lemma {:induction false} SplitAppend(a: string, b: string)
    ensures var parts := Split(a); Split(a + b) == parts[..|parts| - 1] + Split(parts[|parts| - 1] + b)
  {
    hide Split;
    var parts := Split(a);
    if |parts| == 1 {
      SplitSingle(a);
    } else if StartsBlank(a) {
      SplitAppend(a[2..], b);
      SplitStep(a);
      SplitStep(a + b);
      assert (a + b)[2..] == a[2..] + b;
    } else {
      SplitMany(a);
      SplitAppend(a[1..], b);
      SplitStep(a);
      SplitStep(a + b);
      assert (a + b)[1..] == a[1..] + b;
    }
  }

  lemma SplitMany(a: string)
    requires |Split(a)| > 1
    ensures |a| >= 2
  {
    if |a| == 1 {
      assert a[1..] == "";
    }
  }

  lemma {:induction false} SplitSingle(a: string)
    requires |Split(a)| == 1
    ensures Split(a) == [a]
  {
    if a != "" && !StartsBlank(a) {
      SplitSingle(a[1..]);
      assert [a[0]] + a[1..] == a;
    }
  }

  // A text is what is finished, closed by a blank line, and its unfinished piece.
  lemma {:induction false} SplitLast(s: string)
    ensures var parts := Split(s); var rest := parts[|parts| - 1];
      && |rest| <= |s|
      && s[|s| - |rest|..] == rest
      && Split(s[..|s| - |rest|]) == parts[..|parts| - 1] + [""]
  {
    hide Split;
    var parts := Split(s);
    var rest := parts[|parts| - 1];
    if |parts| == 1 {
      SplitSingle(s);
      assert s[..0] == "";
      SplitEmpty();
    } else if StartsBlank(s) {
      SplitMany(s);
      SplitStep(s);
      SplitLast(s[2..]);
      var done := s[..|s| - |rest|];
      assert done[2..] == s[2..][..|s[2..]| - |rest|];
      SplitStep(done);
      var more := Split(s[2..]);
      assert parts[..|parts| - 1] + [""] == [""] + (more[..|more| - 1] + [""]);
    } else {
      SplitMany(s);
      SplitStep(s);
      SplitLast(s[1..]);
      var done := s[..|s| - |rest|];
      assert done[1..] == s[1..][..|s[1..]| - |rest|];
      SplitEmpty();
      SplitStep(done);
    }
  }

  lemma SplitEmpty()
    ensures Split("") == [""]
  {
  }

  // A finished text ends in a blank line.
  lemma {:induction false} FinishedEnds(s: string)
    requires |Split(s)| > 1 && Split(s)[|Split(s)| - 1] == ""
    ensures s != "" && s[|s| - 1] == '\n'
  {
    SplitMany(s);
    if StartsBlank(s) {
      if |Split(s[2..])| > 1 {
        FinishedEnds(s[2..]);
      } else {
        SplitSingle(s[2..]);
      }
    } else {
      FinishedEnds(s[1..]);
    }
  }
}
