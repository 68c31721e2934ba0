/** How a recording that is not the whole file of a closed one ends when it is read: what was handed out
    before, and which error names the damage. */
module CastErrors {
  import opened BigEndian
  import opened CastFormat
  import opened CastLaws

  // A closed recording, and a table that opens all of it.
  ghost predicate Closed(seal: Sealer, f: FileId, rec: Recording, table: Table) {
    AddsTag(seal) && Sound(rec) && rec.final && Opens(seal, f, rec, table)
  }

  // Reading goes through the intact frames at the front, whatever follows them.
  lemma {:induction false} DecodeReaches(seal: Sealer, f: FileId, rec: Recording, table: Table, file: Bytes,
                                         clean: bool, n: nat, m: nat)
    requires Closed(seal, f, rec, table) && n <= m <= FrameCount(rec.data) && Prefix(seal, f, rec.data, m) <= file
    ensures var pos, end := |Prefix(seal, f, rec.data, n)|, |Prefix(seal, f, rec.data, m)|;
      && pos <= end
      && var rest := Decode(table, f, file, clean, end, m);
        Between(rec.data, n, m) + rest.plain == Decode(table, f, file, clean, pos, n).plain &&
          Decode(table, f, file, clean, pos, n).ending == rest.ending
    decreases m - n
  {
    hide ChunkAt, FrameCount, Sealed, ReadFrame, Between, Prefix, Closed;
    PrefixesNest(seal, f, rec.data, n, m);
    if n < m {
      var pos, next := |Prefix(seal, f, rec.data, n)|, |Prefix(seal, f, rec.data, n + 1)|;
      IntactIsRead(seal, f, rec, table, file, clean, n, m);
      DecodeReaches(seal, f, rec, table, file, clean, n + 1, m);
      BetweenStep(rec.data, n, m);
      var rest := Decode(table, f, file, clean, |Prefix(seal, f, rec.data, m)|, m);
      assert ChunkAt(rec.data, n) + (Between(rec.data, n + 1, m) + rest.plain) == Between(rec.data, n, m) + rest.plain;
    } else {
      NothingBetween(rec.data, n);
    }
  }

  lemma IntactIsRead(seal: Sealer, f: FileId, rec: Recording, table: Table, file: Bytes, clean: bool, n: nat, m: nat)
    requires Closed(seal, f, rec, table) && n < m <= FrameCount(rec.data) && Prefix(seal, f, rec.data, m) <= file
    ensures var pos, next := |Prefix(seal, f, rec.data, n)|, |Prefix(seal, f, rec.data, n + 1)|;
      && pos < next <= |file|
      && ReadFrame(table, f, file, clean, pos, n) == Data(ChunkAt(rec.data, n), next)
    ensures NextIndex(n) == n + 1
  {
    hide ChunkAt, FrameCount, Sealed, Nonce, Aad, ReadFrame, Frame;
    var key := KeyOf(seal, f, n, false, ChunkAt(rec.data, n));
    SealedHasFrame(seal, f, rec, n);
    assert 0 < |ChunkAt(rec.data, n)| <= CHUNK;
    PrefixesNest(seal, f, rec.data, n + 1, m);
    var before, next := Prefix(seal, f, rec.data, n), Prefix(seal, f, rec.data, n + 1);
    assert next == before + Frame(key.ct) && |Frame(key.ct)| > 0 by {
      FrameStands([], key.ct, []);
    }
    assert file == next + file[|next|..] == before + (Frame(key.ct) + file[|next|..]);
    ReadsSealedFrame(table, f, before, key, file[|next|..], clean, n, false);
  }

  // The data of the frames from n up to m.
  function Between(data: Bytes, n: nat, m: nat): Bytes
    requires n <= m <= FrameCount(data)
    decreases m - n
  {
    if n == m then [] else ChunkAt(data, n) + Between(data, n + 1, m)
  }

  lemma BetweenStep(data: Bytes, n: nat, m: nat)
    requires n < m <= FrameCount(data)
    ensures Between(data, n, m) == ChunkAt(data, n) + Between(data, n + 1, m)
  {
  }

  lemma NothingBetween(data: Bytes, n: nat)
    requires n <= FrameCount(data)
    ensures Between(data, n, n) == []
  {
  }

  lemma {:induction false} BetweenIs(data: Bytes, n: nat, m: nat)
    requires n <= m <= FrameCount(data)
    ensures DataUpTo(data, n) + Between(data, n, m) == DataUpTo(data, m)
    decreases m - n
  {
    hide DataUpTo, ChunkAt, FrameCount;
    if n < m {
      DataUpToStep(data, n);
      BetweenIs(data, n + 1, m);
      assert DataUpTo(data, n) + (ChunkAt(data, n) + Between(data, n + 1, m)) ==
        (DataUpTo(data, n) + ChunkAt(data, n)) + Between(data, n + 1, m);
    }
  }

  lemma {:induction false} PrefixesNest(seal: Sealer, f: FileId, data: Bytes, n: nat, m: nat)
    requires n <= m <= FrameCount(data)
    ensures Prefix(seal, f, data, n) <= Prefix(seal, f, data, m)
    ensures Header(f) <= Prefix(seal, f, data, n) && |Header(f)| == HEADER_LEN
    decreases m
  {
    hide FrameCount, ChunkAt, Frame, KeyOf;
    if n < m {
      PrefixesNest(seal, f, data, n, m - 1);
    } else if n > 0 {
      PrefixesNest(seal, f, data, n - 1, n - 1);
    }
  }

  // What comes of a file that begins with n intact frames.
  lemma OpenReaches(seal: Sealer, f: FileId, rec: Recording, table: Table, file: Bytes, clean: bool, n: nat)
    requires Closed(seal, f, rec, table) && n <= FrameCount(rec.data) && Prefix(seal, f, rec.data, n) <= file
    ensures var rest := Decode(table, f, file, clean, |Prefix(seal, f, rec.data, n)|, n);
      OpenFile(table, file, clean) == Decoded(DataUpTo(rec.data, n) + rest.plain, rest.ending)
  {
    hide OpenFile, Decode, FrameCount, Prefix, Between, Closed, DataUpTo, Header;
    assert Header(f) <= file by {
      PrefixesNest(seal, f, rec.data, n, n);
    }
    HeaderIsRead(table, f, file, clean);
    NoFrames(seal, f, rec.data);
    DecodeReaches(seal, f, rec, table, file, clean, 0, n);
    assert Between(rec.data, 0, n) == DataUpTo(rec.data, n) by {
      BetweenIs(rec.data, 0, n);
      assert [] + Between(rec.data, 0, n) == Between(rec.data, 0, n);
    }
  }

  lemma HeaderIsRead(table: Table, f: FileId, file: Bytes, clean: bool)
    requires Header(f) <= file
    ensures |Header(f)| == HEADER_LEN && OpenFile(table, file, clean) == Decode(table, f, file, clean, HEADER_LEN, 0)
  {
    hide Decode;
    var head := file[..HEADER_LEN];
    assert head == Header(f) && file[4] == head[4];
    assert file[5..HEADER_LEN] == head[5..] == f && file[..4] == head[..4] == MAGIC;
  }

  lemma NoFrames(seal: Sealer, f: FileId, data: Bytes)
    ensures Prefix(seal, f, data, 0) == Header(f)
    ensures DataUpTo(data, 0) == []
  {
  }

  // What stands where the next frame should.
  datatype Tail = Nothing | PartOfLength | BadLength(length: nat) | PartOfFrame | Foreign | Extra

  ghost predicate TailIs(seal: Sealer, f: FileId, rec: Recording, table: Table, n: nat, tail: Bytes, t: Tail)
    requires n <= FrameCount(rec.data)
  {
    match t
    case Nothing => tail == []
    case PartOfLength => 0 < |tail| < 4
    case BadLength(length) =>
      length < UINT32_SPAN && !(TAG <= length <= CHUNK + TAG) && exists more :: tail == Put(length, 4) + more
    case PartOfFrame =>
      exists length, ct :: TAG <= length <= CHUNK + TAG && |ct| < length && tail == Put(length, 4) + ct
    case Foreign =>
      exists ct, more ::
        && TAG <= |ct| <= CHUNK + TAG && tail == Frame(ct) + more
        && SealKey(f, Nonce(n), Aad(f, n, |ct| == TAG, |ct| - TAG), ct) !in table
    case Extra =>
      n == FrameCount(rec.data) && exists more :: more != [] && tail == Frame(KeyOf(seal, f, n, true, []).ct) + more
  }

  function ErrorOf(t: Tail, clean: bool): ReadError {
    match t
    case Nothing => if clean then MissingFinal else ReadLength
    case PartOfLength => ReadLength
    case BadLength(length) => if length < TAG then FrameCorrupt else FrameTooLarge
    case PartOfFrame => ReadBody
    case Foreign => AuthFailed
    case Extra => TrailingAfterFinal
  }

  /** Behind n intact frames their data is handed out, and the error names what stands there instead of
      the next frame. */
  lemma DamageIsNamed(seal: Sealer, f: FileId, rec: Recording, table: Table, n: nat, tail: Bytes, clean: bool, t: Tail)
    requires Closed(seal, f, rec, table) && n <= FrameCount(rec.data) && TailIs(seal, f, rec, table, n, tail, t)
    ensures var file := Prefix(seal, f, rec.data, n) + tail;
      OpenFile(table, file, clean) == Decoded(DataUpTo(rec.data, n), Failed(ErrorOf(t, clean)))
  {
    hide OpenFile, DataUpTo, FrameCount, Prefix, Nonce, Aad, Get, Put, Sealed;
    var before := Prefix(seal, f, rec.data, n);
    var file, pos := before + tail, |before|;
    OpenReaches(seal, f, rec, table, file, clean, n);
    assert ReadFrame(table, f, file, clean, pos, n) == Bad(ErrorOf(t, clean)) by {
      TailIsRead(seal, f, rec, table, n, before, tail, clean, t);
    }
    hide ReadFrame;
    assert DataUpTo(rec.data, n) + [] == DataUpTo(rec.data, n);
  }

  lemma TailIsRead(seal: Sealer, f: FileId, rec: Recording, table: Table, n: nat, before: Bytes, tail: Bytes,
                   clean: bool, t: Tail)
    requires Closed(seal, f, rec, table) && n <= FrameCount(rec.data) && TailIs(seal, f, rec, table, n, tail, t)
    ensures ReadFrame(table, f, before + tail, clean, |before|, n) == Bad(ErrorOf(t, clean))
  {
    hide FrameCount, Nonce, Aad, Get, Put, Sealed;
    match t
    case BadLength(length) =>
      var more :| tail == Put(length, 4) + more;
      LengthIsRead(before, length, more);
    case PartOfFrame =>
      var length, ct :| TAG <= length <= CHUNK + TAG && |ct| < length && tail == Put(length, 4) + ct;
      LengthIsRead(before, length, ct);
    case Foreign =>
      var ct, more :|
        && TAG <= |ct| <= CHUNK + TAG && tail == Frame(ct) + more
        && SealKey(f, Nonce(n), Aad(f, n, |ct| == TAG, |ct| - TAG), ct) !in table;
      hide Frame;
      FrameStands(before, ct, more);
    case Extra =>
      var key := KeyOf(seal, f, n, true, []);
      var more :| more != [] && tail == Frame(key.ct) + more;
      hide Frame;
      FinalIsSealed(seal, f, rec);
      ReadsSealedFrame(table, f, before, key, more, clean, n, true);
    case _ =>
  }

  lemma LengthIsRead(before: Bytes, length: nat, more: Bytes)
    requires length < UINT32_SPAN
    ensures var file := before + (Put(length, 4) + more);
      |Put(length, 4)| == 4 && Get(file[|before|..|before| + 4]) == length
  {
    Spans();
    GetPut(length, 4);
    hide Get, Put;
    var file := before + (Put(length, 4) + more);
    assert file[|before|..|before| + 4] == Put(length, 4);
  }

  // The n-th frame of the closed file, the final one behind all others.
  function FrameAt(seal: Sealer, f: FileId, data: Bytes, n: nat): Bytes
    requires n <= FrameCount(data)
  {
    if n == FrameCount(data) then Frame(KeyOf(seal, f, n, true, []).ct)
    else Frame(KeyOf(seal, f, n, false, ChunkAt(data, n)).ct)
  }

  // Every place behind the header lies in a frame.
  lemma {:induction false} CutIsInAFrame(seal: Sealer, f: FileId, data: Bytes, k: nat, m: nat) returns (n: nat)
    requires m <= FrameCount(data) && HEADER_LEN <= k
    requires k < |Prefix(seal, f, data, m)| + |FrameAt(seal, f, data, m)|
    ensures n <= m && 0 <= k - |Prefix(seal, f, data, n)| < |FrameAt(seal, f, data, n)|
  {
    hide FrameCount, ChunkAt, Frame, KeyOf;
    if k >= |Prefix(seal, f, data, m)| {
      n := m;
    } else {
      PrefixesNest(seal, f, data, m, m);
      n := CutIsInAFrame(seal, f, data, k, m - 1);
    }
  }

  lemma FrameIsLong(seal: Sealer, f: FileId, data: Bytes, n: nat)
    requires AddsTag(seal) && n <= FrameCount(data)
    ensures exists ct :: TAG <= |ct| <= CHUNK + TAG && FrameAt(seal, f, data, n) == Put(|ct|, 4) + ct
  {
    hide Put, FrameCount, Nonce, Aad;
    var final := n == FrameCount(data);
    if !final {
      assert 0 < |ChunkAt(data, n)| <= CHUNK;
    }
    var ct := (if final then KeyOf(seal, f, n, true, []) else KeyOf(seal, f, n, false, ChunkAt(data, n))).ct;
    assert FrameAt(seal, f, data, n) == Put(|ct|, 4) + ct;
  }

  // A file cut off inside a frame, d bytes into it.
  function CutError(d: nat, clean: bool): ReadError {
    if d == 0 && clean then MissingFinal else if d < 4 then ReadLength else ReadBody
  }

  lemma PartIsTail(seal: Sealer, f: FileId, rec: Recording, table: Table, n: nat, d: nat, clean: bool) returns (t: Tail)
    requires AddsTag(seal) && n <= FrameCount(rec.data) && d < |FrameAt(seal, f, rec.data, n)|
    ensures TailIs(seal, f, rec, table, n, FrameAt(seal, f, rec.data, n)[..d], t)
    ensures ErrorOf(t, clean) == CutError(d, clean)
  {
    hide Put, FrameCount, FrameAt;
    FrameIsLong(seal, f, rec.data, n);
    var ct :| TAG <= |ct| <= CHUNK + TAG && FrameAt(seal, f, rec.data, n) == Put(|ct|, 4) + ct;
    var part := FrameAt(seal, f, rec.data, n)[..d];
    if d == 0 {
      t := Nothing;
    } else if d < 4 {
      t := PartOfLength;
    } else {
      t := PartOfFrame;
      assert part == Put(|ct|, 4) + ct[..d - 4];
    }
  }

  /** A closed file that is cut off, or whose source fails, anywhere: the chunks whose frames are whole are
      handed out, and the error says whether the cut fell between two frames, in a length or in a frame. */
  lemma TruncationIsNamed(seal: Sealer, f: FileId, rec: Recording, table: Table, k: nat, clean: bool) returns (n: nat)
    requires Closed(seal, f, rec, table) && k < |FileOf(seal, f, rec.data)|
    ensures var cut := FileOf(seal, f, rec.data)[..k];
      && (k < HEADER_LEN ==> OpenFile(table, cut, clean) == Decoded([], Failed(BadHeader)))
      && (k >= HEADER_LEN ==>
            && n <= FrameCount(rec.data)
            && var d := k - |Prefix(seal, f, rec.data, n)|;
              && 0 <= d < |FrameAt(seal, f, rec.data, n)|
              && OpenFile(table, cut, clean) == Decoded(DataUpTo(rec.data, n), Failed(CutError(d, clean))))
  {
    var file := FileOf(seal, f, rec.data);
    if k < HEADER_LEN {
      n := 0;
    } else {
      n := CutIsInAFrame(seal, f, rec.data, k, FrameCount(rec.data));
      CutIsPrefixAndPart(seal, f, rec.data, k, n);
      hide OpenFile, FrameAt, Prefix, DataUpTo, FileOf, TailIs, FrameCount, Sealed;
      var d := k - |Prefix(seal, f, rec.data, n)|;
      var t := PartIsTail(seal, f, rec, table, n, d, clean);
      DamageIsNamed(seal, f, rec, table, n, FrameAt(seal, f, rec.data, n)[..d], clean, t);
    }
  }

  lemma CutIsPrefixAndPart(seal: Sealer, f: FileId, data: Bytes, k: nat, n: nat)
    requires n <= FrameCount(data) && 0 <= k - |Prefix(seal, f, data, n)| < |FrameAt(seal, f, data, n)|
    ensures var d := k - |Prefix(seal, f, data, n)|;
      k <= |FileOf(seal, f, data)| &&
        FileOf(seal, f, data)[..k] == Prefix(seal, f, data, n) + FrameAt(seal, f, data, n)[..d]
  {
    hide FileOf, Prefix, FrameCount, ChunkAt, KeyOf, Frame;
    FileSplits(seal, f, data, n);
    assert FrameAt(seal, f, data, n) <= Suffix(seal, f, data, n);
  }

  /** Before any frame is read, a file too short for the header, of another kind, or of another version
      ends at once, in that order. */
  lemma HeaderIsNamed(table: Table, magic: Bytes, version: Byte, more: Bytes, clean: bool)
    requires |magic| == 4
    ensures var file := magic + [version] + more; var d := OpenFile(table, file, clean);
      && (d == Decoded([], Failed(BadHeader)) <==> |more| < 16)
      && (|more| >= 16 ==> (d == Decoded([], Failed(BadMagic)) <==> magic != [71, 70, 67, 49]))
      && (|more| >= 16 && magic == [71, 70, 67, 49] ==>
            (d == Decoded([], Failed(UnsupportedVersion)) <==> version != 1))
  {
    hide ReadFrame;
    var file := magic + [version] + more;
    assert file[..4] == magic && file[4] == version;
    if |more| >= 16 && magic == MAGIC && version == FORMAT_VERSION {
      FramesEndOtherwise(table, file[5..HEADER_LEN], file, clean, HEADER_LEN, 0);
    }
  }

  predicate OfHeader(e: ReadError) { e.BadHeader? || e.BadMagic? || e.UnsupportedVersion? }

  lemma {:induction false} FramesEndOtherwise(table: Table, f: FileId, file: Bytes, clean: bool, pos: nat, index: nat)
    requires pos <= |file|
    ensures var e := Decode(table, f, file, clean, pos, index).ending; e.Failed? ==> !OfHeader(e.error)
    decreases |file| - pos
  {
    hide Nonce, Aad, Get;
    var r := ReadFrame(table, f, file, clean, pos, index);
    if r.Data? {
      FramesEndOtherwise(table, f, file, clean, r.next, NextIndex(index));
    }
  }
}
