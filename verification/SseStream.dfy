/** Reading an event stream in chunks: when the chunking does not matter, and what the job
    stream reader therefore delivers. */
module SseStream {
  import opened SseParse

  // Parsing the unfinished rest of a with b behind it, after the frames of a.
  function Resume(a: Parsed, b: string): Parsed {
    var next := Parse(a.rest + b);
    Parsed(a.frames + next.frames, next.rest)
  }

  lemma {:induction false} FramesAppend(xs: seq<string>, ys: seq<string>)
    ensures FramesOf(xs + ys) == FramesOf(xs) + FramesOf(ys)
  {
    hide FrameOf;
    if ys == [] {
      assert xs + ys == xs;
    } else {
      FramesAppend(xs, ys[..|ys| - 1]);
      assert (xs + ys)[..|xs + ys| - 1] == xs + ys[..|ys| - 1];
    }
  }

  // A finished text in front adds its frames and leaves the rest alone.
  lemma {:induction false} FinishedFirst(done: string, blocks: seq<string>, more: string)
    requires Split(done) == blocks + [""]
    ensures Split(done + more) == blocks + Split(more)
  {
    hide Split;
    SplitAppend(done, more);
    assert (blocks + [""])[..|blocks|] == blocks && "" + more == more;
  }

  lemma {:induction false} GlueBehind(done: string, rest: string, crlf: bool, y: string)
    requires crlf ==> rest != ""
    ensures crlf ==> done + rest != ""
    ensures Glue(done + rest, crlf, y) == done + Glue(rest, crlf, y)
  {
    if crlf {
      assert (done + rest)[..|done + rest| - 1] == done + rest[..|rest| - 1];
    }
    assert done + (rest + y) == (done + rest) + y;
  }

  // Without "\r\n" in the unfinished piece, normalizing it again with b behind it gives what
  // normalizing everything gives.
  lemma {:induction false} NormalizeResumes(a: string, b: string, done: string, rest: string)
    requires Normalize(a) == done + rest
    requires done != "" ==> done[|done| - 1] == '\n'
    requires !Contains(rest, "\r\n")
    ensures Normalize(a + b) == done + Normalize(rest + b)
  {
    hide Normalize, Contains, Glue;
    NormalizeAppend(a, b);
    NormalizeAppend(rest, b);
    NormalizeLength(rest);
    NormalizeEnd(a);
    NormalizeEmpty();
    assert EndsCR(a) <==> EndsCR(rest) by {
      assert EndsCR(done + rest) <==> EndsCR(rest) by {
        if rest != "" {
          assert (done + rest)[|done + rest| - 1] == rest[|rest| - 1];
        } else {
          assert done + rest == done;
        }
      }
    }
    GlueBehind(done, rest, EndsCR(a) && "\n" <= b, Normalize(b));
  }

  /** Parsing in two steps equals parsing at once, if the rest carried over holds no "\r\n". */
  lemma {:induction false} ParseAppend(a: string, b: string)
    requires !Contains(Parse(a).rest, "\r\n")
    ensures Parse(a + b) == Resume(Parse(a), b)
  {
    hide Normalize, Split, FramesOf, Contains;
    var na := Normalize(a);
    var parts := Split(na);
    var blocks, rest := parts[..|parts| - 1], parts[|parts| - 1];
    SplitLast(na);
    var done := na[..|na| - |rest|];
    assert na == done + rest;
    if done != "" {
      if blocks == [] {
        SplitSingle(done);
      } else {
        FinishedEnds(done);
      }
    }
    NormalizeResumes(a, b, done, rest);
    var more := Split(Normalize(rest + b));
    FinishedFirst(done, blocks, Normalize(rest + b));
    assert (blocks + more)[..|blocks + more| - 1] == blocks + more[..|more| - 1];
    FramesAppend(blocks, more[..|more| - 1]);
  }

  lemma FirstOf(b: string)
    ensures "\n" <= Normalize(b) ==> "\n" <= b || StartsCRLF(b)
  {
  }

  // Only "\r\r\n" leaves a "\r\n" behind.
  lemma {:induction false} NormalizedClean(s: string)
    requires !Contains(s, "\r\r\n")
    ensures !Contains(Normalize(s), "\r\n")
  {
    if s == "" {
    } else if StartsCRLF(s) {
      NormalizedClean(s[2..]);
    } else {
      NormalizedClean(s[1..]);
      FirstOf(s[1..]);
      assert Normalize(s)[1..] == Normalize(s[1..]);
    }
  }

  lemma {:induction false} ContainsSuffix(s: string, k: nat, t: string)
    requires k <= |s| && Contains(s[k..], t)
    ensures Contains(s, t)
  {
    if k > 0 {
      assert s[1..][k - 1..] == s[k..];
      ContainsSuffix(s[1..], k - 1, t);
    } else {
      assert s[0..] == s;
    }
  }

  lemma {:induction false} ContainsPrefix(s: string, more: string, t: string)
    requires Contains(s, t)
    ensures Contains(s + more, t)
  {
    if !(t <= s) {
      ContainsPrefix(s[1..], more, t);
      assert (s + more)[1..] == s[1..] + more;
    }
  }

  lemma {:induction false} CleanRest(s: string)
    requires !Contains(s, "\r\r\n")
    ensures !Contains(Parse(s).rest, "\r\n")
  {
    hide Contains, Normalize, Split;
    NormalizedClean(s);
    SplitLast(Normalize(s));
    var rest := Parse(s).rest;
    if Contains(rest, "\r\n") {
      ContainsSuffix(Normalize(s), |Normalize(s)| - |rest|, "\r\n");
    }
  }

  function Concat(chunks: seq<string>): string {
    if chunks == [] then "" else Concat(chunks[..|chunks| - 1]) + chunks[|chunks| - 1]
  }

  // What reading the chunks one by one has parsed. An empty read is not parsed.
  function Fold(chunks: seq<string>): Parsed {
    if chunks == [] then Parsed([], "")
    else if chunks[|chunks| - 1] == "" then Fold(chunks[..|chunks| - 1])
    else Resume(Fold(chunks[..|chunks| - 1]), chunks[|chunks| - 1])
  }

  // All frames of a stream: those parsed while reading, and those of the drained rest.
  function AllFrames(chunks: seq<string>): seq<Event> {
    var p := Fold(chunks);
    p.frames + if p.rest == "" then [] else Parse(p.rest + "\n\n").frames
  }

  predicate HasEnd(frames: seq<Event>) {
    exists k :: 0 <= k < |frames| && frames[k].name == "end"
  }

  // The frames up to and including the first `end`.
  function CutEnd(frames: seq<Event>): seq<Event> {
    if frames == [] then []
    else if frames[0].name == "end" then [frames[0]]
    else [frames[0]] + CutEnd(frames[1..])
  }

  lemma {:induction false} CutEndAppend(xs: seq<Event>, ys: seq<Event>)
    ensures CutEnd(xs + ys) == if HasEnd(xs) then CutEnd(xs) else xs + CutEnd(ys)
    ensures CutEnd(xs) <= xs && (!HasEnd(xs) ==> CutEnd(xs) == xs)
  {
    hide CutEnd, HasEnd;
    if xs == [] {
      assert xs + ys == ys;
      NoFrames();
    } else {
      var first, more := xs[0], xs[1..];
      assert xs + ys == [first] + (more + ys) && xs == [first] + more;
      EndOfFirst(xs);
      CutEndStep(first, more + ys);
      CutEndStep(first, more);
      if first.name != "end" {
        CutEndAppend(more, ys);
        assert [first] + (more + CutEnd(ys)) == xs + CutEnd(ys);
      }
    }
  }

  lemma NoFrames()
    ensures CutEnd([]) == [] && !HasEnd([])
  {
  }

  lemma CutEndStep(first: Event, more: seq<Event>)
    ensures CutEnd([first] + more) == if first.name == "end" then [first] else [first] + CutEnd(more)
  {
    assert ([first] + more)[1..] == more;
  }

  lemma EndOfFirst(xs: seq<Event>)
    requires xs != []
    ensures HasEnd(xs) <==> xs[0].name == "end" || HasEnd(xs[1..])
  {
    if k :| 0 <= k < |xs[1..]| && xs[1..][k].name == "end" {
      assert xs[k + 1].name == "end";
    }
    if k :| 0 <= k < |xs| && xs[k].name == "end" && k > 0 {
      assert xs[1..][k - 1].name == "end";
    }
  }

  lemma {:induction false} FoldIsParse(chunks: seq<string>)
    requires !Contains(Concat(chunks), "\r\r\n")
    ensures Fold(chunks) == Parse(Concat(chunks))
  {
    hide Contains, Parse;
    if chunks == [] {
      ParseEmpty();
    } else {
      var before, chunk := chunks[..|chunks| - 1], chunks[|chunks| - 1];
      if Contains(Concat(before), "\r\r\n") {
        ContainsPrefix(Concat(before), chunk, "\r\r\n");
      }
      FoldIsParse(before);
      if chunk == "" {
        assert Concat(before) + "" == Concat(before);
      } else {
        CleanRest(Concat(before));
        ParseAppend(Concat(before), chunk);
      }
    }
  }

  lemma ParseEmpty()
    ensures Parse("") == Parsed([], "")
    ensures Parse("\n\n") == Parsed([], "")
  {
    assert Normalize("\n\n") == "\n\n";
    assert Split("\n\n") == ["", ""];
    assert FramesOf([""]) == [] by {
      assert FramesOf([""][..0]) == [];
    }
  }

  /** Chunk invariance: for a body without "\r\r\n", every way of cutting it into reads,
      inside a "\r\n" or a blank line too, gives the same frames: those of the whole body
      closed by a blank line. */
  lemma {:induction false} ChunkingIsIrrelevant(chunks: seq<string>)
    requires !Contains(Concat(chunks), "\r\r\n")
    ensures AllFrames(chunks) == Parse(Concat(chunks) + "\n\n").frames
  {
    hide Contains, Parse;
    FoldIsParse(chunks);
    CleanRest(Concat(chunks));
    ParseAppend(Concat(chunks), "\n\n");
    ParseEmpty();
    assert "" + "\n\n" == "\n\n";
  }

  lemma FoldStep(chunks: seq<string>, k: nat)
    requires k < |chunks|
    ensures Fold(chunks[..k + 1]) == if chunks[k] == "" then Fold(chunks[..k]) else Resume(Fold(chunks[..k]), chunks[k])
  {
    assert chunks[..k + 1][..k] == chunks[..k];
  }

  lemma {:induction false} FoldGrows(chunks: seq<string>, k: nat)
    requires k <= |chunks|
    ensures Fold(chunks[..k]).frames <= Fold(chunks).frames
    decreases |chunks| - k
  {
    hide Parse;
    if k == |chunks| {
      assert chunks[..k] == chunks;
    } else {
      FoldStep(chunks, k);
      FoldGrows(chunks, k + 1);
    }
  }

  // Frames parsed so far begin what the whole stream delivers, and settle it once they end.
  lemma {:induction false} FoldPrefix(chunks: seq<string>, k: nat)
    requires k <= |chunks|
    ensures var done := Fold(chunks[..k]).frames;
      && CutEnd(done) <= CutEnd(AllFrames(chunks))
      && (HasEnd(done) ==> CutEnd(done) == CutEnd(AllFrames(chunks)) && HasEnd(AllFrames(chunks)))
  {
    hide Parse, CutEnd, Fold;
    FoldGrows(chunks, k);
    var done, all := Fold(chunks[..k]).frames, AllFrames(chunks);
    assert all == done + all[|done|..];
    CutEndAppend(done, all[|done|..]);
    if j :| 0 <= j < |done| && done[j].name == "end" {
      assert all[j].name == "end";
    }
  }

  lemma HasEndAppend(xs: seq<Event>, ys: seq<Event>)
    ensures HasEnd(xs + ys) <==> HasEnd(xs) || HasEnd(ys)
  {
    var all := xs + ys;
    if k :| 0 <= k < |xs| && xs[k].name == "end" {
      assert all[k].name == "end";
    }
    if k :| 0 <= k < |ys| && ys[k].name == "end" {
      assert all[|xs| + k].name == "end";
    }
  }

  // Hand the frames out in order, stopping after an `end`.
  method Emit(delivered: seq<Event>, frames: seq<Event>) returns (now: seq<Event>, ended: bool)
    ensures ended == HasEnd(frames) && now == delivered + CutEnd(frames)
    ensures !ended ==> now == delivered + frames
  {
    hide CutEnd;
    now := delivered;
    for k := 0 to |frames|
      invariant !HasEnd(frames[..k]) && now == delivered + frames[..k]
    {
      now := now + [frames[k]];
      assert frames == frames[..k] + frames[k..] && frames[k..][0] == frames[k];
      assert frames[..k + 1] == frames[..k] + [frames[k]];
      if frames[k].name == "end" {
        CutEndAppend(frames[..k], frames[k..]);
        EndsAtOnce(frames[k..]);
        return now, true;
      }
      HasEndAppend(frames[..k], [frames[k]]);
    }
    assert frames[..|frames|] == frames;
    CutEndAppend(frames, []);
    return now, false;
  }

  lemma EndsAtOnce(frames: seq<Event>)
    requires frames != [] && frames[0].name == "end"
    ensures CutEnd(frames) == [frames[0]]
  {
  }

  /** Read a job's stream: the reads arrive as chunks, then the body ends or fails; before a
      read the caller may have cancelled. */
  method StreamJob(chunks: seq<string>, failed: bool, stop: nat) returns (delivered: seq<Event>, err: bool)
    ensures delivered <= CutEnd(AllFrames(chunks))
    ensures stop > |chunks| ==>
      delivered == CutEnd(AllFrames(chunks)) && (err <==> failed && !HasEnd(AllFrames(chunks)))
    ensures stop <= |chunks| ==> !err
  {
    hide Parse, CutEnd, HasEnd;
    var buf := "";
    delivered := [];
    assert !HasEnd([]) by { NoEnd(); }
    var k := 0;
    while k < |chunks| && k != stop
      invariant k <= |chunks| && k <= stop
      invariant Fold(chunks[..k]) == Parsed(delivered, buf) && !HasEnd(delivered)
    {
      FoldStep(chunks, k);
      if |chunks[k]| > 0 {
        ghost var before := delivered;
        var frames, rest := ParseSSE(buf + chunks[k]);
        buf := rest;
        var ended;
        delivered, ended := Emit(delivered, frames);
        HasEndAppend(before, frames);
        if ended {
          CutEndAppend(before, frames);
          FoldPrefix(chunks, k + 1);
          return delivered, false;
        }
      }
      k := k + 1;
    }
    if k == stop {
      FoldPrefix(chunks, k);
      CutEndAppend(delivered, []);
      return delivered, false;
    }
    assert chunks[..k] == chunks;
    delivered, err := Drain(delivered, buf, failed);
    CutEndAppend(Fold(chunks).frames, AllFrames(chunks)[|Fold(chunks).frames|..]);
    HasEndAppend(Fold(chunks).frames, AllFrames(chunks)[|Fold(chunks).frames|..]);
  }

  lemma NoEnd()
    ensures !HasEnd([])
  {
  }

  // The body has ended: parse what is left as if a blank line followed.
  method Drain(delivered: seq<Event>, buf: string, failed: bool) returns (now: seq<Event>, err: bool)
    ensures var frames := if buf == "" then [] else Parse(buf + "\n\n").frames;
      now == delivered + CutEnd(frames) && (err <==> failed && !HasEnd(frames))
  {
    hide Parse;
    if |buf| > 0 {
      var frames, _ := ParseSSE(buf + "\n\n");
      var ended;
      now, ended := Emit(delivered, frames);
      return now, failed && !ended;
    }
    return delivered, failed;
  }

  /** What is delivered ends with the first `end`, that event included, or with the last frame. */
  lemma {:induction false} CutEndIsTheFirst(frames: seq<Event>)
    ensures var out := CutEnd(frames);
      && out <= frames
      && (forall k :: 0 <= k < |out| - 1 ==> out[k].name != "end")
      && (|out| < |frames| ==> out != [] && out[|out| - 1].name == "end")
      && (frames != [] ==> out != [])
  {
    if frames != [] && frames[0].name != "end" {
      CutEndIsTheFirst(frames[1..]);
      assert frames == [frames[0]] + frames[1..];
    }
  }
}
