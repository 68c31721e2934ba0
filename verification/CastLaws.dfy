/** What the recording format guarantees against an ideal AEAD: a reader finishes only on the
    exact file of a closed recording, and hands out nothing but a prefix of its plaintext. */
module CastLaws {
  import opened BigEndian
  import opened CastFormat

  type World = map<FileId, Recording>

  // The table holds nothing but what the writers of the world sealed.
  ghost predicate Ideal(seal: Sealer, world: World, table: Table) {
    && AddsTag(seal)
    && (forall f :: f in world ==> Sound(world[f]))
    && (forall key :: key in table ==> key.file in world && WasSealed(seal, world, table, key))
  }

  ghost predicate WasSealed(seal: Sealer, world: World, table: Table, key: SealKey)
    requires key in table && key.file in world && world[key.file].frames <= FrameCount(world[key.file].data)
  {
    var sealed := Sealed(seal, key.file, world[key.file]);
    key in sealed && table[key] == sealed[key]
  }

  lemma {:induction false} SealedFrameIs(seal: Sealer, f: FileId, data: Bytes, n: nat, key: SealKey) returns (k: nat)
    requires n <= FrameCount(data) < UINT64_SPAN
    requires key in SealedFrames(seal, f, data, n)
    ensures k < n && key == KeyOf(seal, f, k, false, ChunkAt(data, k))
    ensures SealedFrames(seal, f, data, n)[key] == ChunkAt(data, k)
  {
    hide Nonce, Aad, ChunkAt, FrameCount;
    var last := KeyOf(seal, f, n - 1, false, ChunkAt(data, n - 1));
    if key == last {
      k := n - 1;
    } else {
      k := SealedFrameIs(seal, f, data, n - 1, key);
    }
  }

  lemma {:induction false} FrameIsSealed(seal: Sealer, f: FileId, data: Bytes, n: nat, k: nat)
    requires k < n <= FrameCount(data) < UINT64_SPAN
    ensures var key := KeyOf(seal, f, k, false, ChunkAt(data, k));
      key in SealedFrames(seal, f, data, n) && SealedFrames(seal, f, data, n)[key] == ChunkAt(data, k)
  {
    hide Nonce, Aad, ChunkAt, FrameCount;
    if k < n - 1 {
      FrameIsSealed(seal, f, data, n - 1, k);
      NonceRepeats(k, n - 1);
    }
  }

  // A sealed key names its frame: the index by the nonce, the kind by the associated data.
  lemma {:induction false} SealedKeyNames(seal: Sealer, f: FileId, rec: Recording, key: SealKey, index: nat,
                                          final: bool, length: nat)
    requires Sound(rec) && index < UINT64_SPAN
    requires key in Sealed(seal, f, rec)
    requires key.nonce == Nonce(index) && key.aad == Aad(f, index, final, length)
    ensures !final ==> index < rec.frames && key == KeyOf(seal, f, index, false, ChunkAt(rec.data, index))
    ensures !final ==> Sealed(seal, f, rec)[key] == ChunkAt(rec.data, index)
    ensures final ==> rec.final && index == FrameCount(rec.data) && key == KeyOf(seal, f, index, true, [])
  {
    hide Nonce, Aad, ChunkAt, FrameCount;
    var last := KeyOf(seal, f, FrameCount(rec.data), true, []);
    if rec.final && key == last {
      NonceRepeats(index, FrameCount(rec.data));
      AadBinds(f, index, final, length, f, FrameCount(rec.data), true, 0);
    } else {
      var k := SealedFrameIs(seal, f, rec.data, rec.frames, key);
      NonceRepeats(index, k);
      AadBinds(f, index, final, length, f, k, false, |ChunkAt(rec.data, k)|);
    }
  }

  // The reader stands after n authentic frames of the recording.
  ghost predicate Stands(seal: Sealer, f: FileId, rec: Recording, file: Bytes, pos: nat, n: nat) {
    && pos <= |file|
    && n <= rec.frames <= FrameCount(rec.data)
    && file[..pos] == Prefix(seal, f, rec.data, n)
  }

  /** The next frame a reader accepts is the next frame that was written, and the final frame is
      accepted only at the end of the exact file. */
  lemma {:induction false} NextFrameAuthentic(seal: Sealer, world: World, table: Table, f: FileId, file: Bytes,
                                              clean: bool, pos: nat, n: nat)
    requires Ideal(seal, world, table) && f in world
    requires Stands(seal, f, world[f], file, pos, n)
    ensures var rec := world[f];
      match ReadFrame(table, f, file, clean, pos, n)
      case Data(pt, next) => n < rec.frames && pt == ChunkAt(rec.data, n) && Stands(seal, f, rec, file, next, n + 1)
      case Final => rec.final && n == FrameCount(rec.data) && file == FileOf(seal, f, rec.data)
      case Bad(_) => true
  {
    hide Nonce, Aad, ChunkAt, FrameCount, SealedFrames;
    var rec := world[f];
    var r := ReadFrame(table, f, file, clean, pos, n);
    if !r.Bad? {
      var ctLen := Get(file[pos..pos + 4]);
      var ct := file[pos + 4..pos + 4 + ctLen];
      var key := SealKey(f, Nonce(n), Aad(f, n, ctLen == TAG, ctLen - TAG), ct);
      assert WasSealed(seal, world, table, key);
      SealedKeyNames(seal, f, rec, key, n, ctLen == TAG, ctLen - TAG);
      PutGet(file[pos..pos + 4]);
      assert file[..pos + 4 + ctLen] == file[..pos] + Frame(ct);
    }
  }

  // A file id nobody wrote opens nothing.
  lemma {:induction false} StrangerOpensNothing(seal: Sealer, world: World, table: Table, f: FileId, file: Bytes,
                                                clean: bool)
    requires Ideal(seal, world, table) && f !in world && HEADER_LEN <= |file|
    ensures ReadFrame(table, f, file, clean, HEADER_LEN, 0).Bad?
  {
    forall key | key in table
      ensures key.file != f
    {
    }
  }

  // The data of the first n frames.
  function DataUpTo(data: Bytes, n: nat): Bytes
    requires n <= FrameCount(data)
  {
    data[..if n * CHUNK <= |data| then n * CHUNK else |data|]
  }

  lemma DataUpToStep(data: Bytes, n: nat)
    requires n < FrameCount(data)
    ensures DataUpTo(data, n + 1) == DataUpTo(data, n) + ChunkAt(data, n)
  {
  }

  lemma DataUpToAll(data: Bytes)
    ensures DataUpTo(data, FrameCount(data)) == data
  {
  }

  // What decoding from n authentic frames on gives, the last frame first.
  ghost predicate Continues(seal: Sealer, f: FileId, rec: Recording, file: Bytes, n: nat, d: Decoded)
    requires n <= FrameCount(rec.data)
  {
    && DataUpTo(rec.data, n) + d.plain <= rec.data
    && (d.ending == Complete ==>
         rec.final && file == FileOf(seal, f, rec.data) && DataUpTo(rec.data, n) + d.plain == rec.data)
  }

  lemma ContinuesBack(seal: Sealer, f: FileId, rec: Recording, file: Bytes, n: nat, rest: Decoded)
    requires n < FrameCount(rec.data)
    requires Continues(seal, f, rec, file, n + 1, rest)
    ensures Continues(seal, f, rec, file, n, Decoded(ChunkAt(rec.data, n) + rest.plain, rest.ending))
  {
    hide FileOf, DataUpTo, ChunkAt, FrameCount;
    DataUpToStep(rec.data, n);
    assert DataUpTo(rec.data, n) + (ChunkAt(rec.data, n) + rest.plain) == DataUpTo(rec.data, n + 1) + rest.plain;
  }

  lemma {:induction false} DecodeAuthentic(seal: Sealer, world: World, table: Table, f: FileId, file: Bytes,
                                           clean: bool, pos: nat, n: nat)
    requires Ideal(seal, world, table) && f in world
    requires Stands(seal, f, world[f], file, pos, n)
    ensures Continues(seal, f, world[f], file, n, Decode(table, f, file, clean, pos, n))
    decreases |file| - pos
  {
    hide ReadFrame, FileOf, ChunkAt, FrameCount, Prefix;
    var rec := world[f];
    NextFrameAuthentic(seal, world, table, f, file, clean, pos, n);
    match ReadFrame(table, f, file, clean, pos, n)
    case Bad(_) =>
    case Final =>
      DataUpToAll(rec.data);
    case Data(pt, next) =>
      DecodeAuthentic(seal, world, table, f, file, clean, next, n + 1);
      ContinuesBack(seal, f, rec, file, n, Decode(table, f, file, clean, next, n + 1));
  }

  /** Reading any bytes at all: the reader completes only on exactly the file of a closed
      recording, then hands out exactly its data; before any error it hands out only a prefix
      of the data recorded under the file's id. Truncated, reordered, repeated, spliced or
      extended files therefore end in an error. */
  lemma {:induction false} OpenAuthentic(seal: Sealer, world: World, table: Table, file: Bytes, clean: bool)
    requires Ideal(seal, world, table)
    ensures var d := OpenFile(table, file, clean);
      && (d.ending == Complete ==>
        exists f :: f in world && world[f].final && file == FileOf(seal, f, world[f].data) && d.plain == world[f].data)
      && (d.plain != [] ==>
        HEADER_LEN <= |file| && file[5..HEADER_LEN] in world && d.plain <= world[file[5..HEADER_LEN]].data)
  {
    if HEADER_LEN <= |file| && file[..4] == MAGIC && file[4] == FORMAT_VERSION {
      var f := file[5..HEADER_LEN];
      if f in world {
        hide Decode;
        assert file[..HEADER_LEN] == Header(f);
        DecodeAuthentic(seal, world, table, f, file, clean, HEADER_LEN, 0);
      } else {
        StrangerOpensNothing(seal, world, table, f, file, clean);
      }
    }
  }

  // The frames of a closed file from frame n on.
  ghost function Suffix(seal: Sealer, f: FileId, data: Bytes, n: nat): Bytes
    requires n <= FrameCount(data)
    decreases FrameCount(data) - n
  {
    if n == FrameCount(data) then Frame(KeyOf(seal, f, n, true, []).ct)
    else Frame(KeyOf(seal, f, n, false, ChunkAt(data, n)).ct) + Suffix(seal, f, data, n + 1)
  }

  lemma {:induction false} FileSplits(seal: Sealer, f: FileId, data: Bytes, n: nat)
    requires n <= FrameCount(data)
    ensures FileOf(seal, f, data) == Prefix(seal, f, data, n) + Suffix(seal, f, data, n)
    decreases FrameCount(data) - n
  {
    hide FrameCount, ChunkAt, Frame, KeyOf;
    if n < FrameCount(data) {
      FileSplits(seal, f, data, n + 1);
      var here := Frame(KeyOf(seal, f, n, false, ChunkAt(data, n)).ct);
      var before, behind := Prefix(seal, f, data, n), Suffix(seal, f, data, n + 1);
      assert before + (here + behind) == (before + here) + behind;
    }
  }

  // A frame standing in the file is read back as it was sealed.
  lemma {:induction false} ReadsSealedFrame(table: Table, f: FileId, before: Bytes, key: SealKey, after: Bytes,
                                            clean: bool, index: nat, final: bool)
    requires |key.ct| <= CHUNK + TAG && (if final then |key.ct| == TAG else |key.ct| > TAG)
    requires key.file == f && key.nonce == Nonce(index) && key.aad == Aad(f, index, final, |key.ct| - TAG)
    requires key in table
    ensures var file := before + (Frame(key.ct) + after);
      ReadFrame(table, f, file, clean, |before|, index) ==
        if !final then Data(table[key], |before| + |Frame(key.ct)|)
        else if after != [] || !clean then Bad(TrailingAfterFinal)
        else Final
  {
    hide Nonce, Aad, Put, Frame;
    FrameStands(before, key.ct, after);
  }

  // A frame in a file, as the reader finds it.
  lemma FrameStands(before: Bytes, ct: Bytes, after: Bytes)
    requires |ct| <= CHUNK + TAG
    ensures var file, pos := before + (Frame(ct) + after), |before|;
      && |Frame(ct)| == 4 + |ct|
      && |file| == pos + 4 + |ct| + |after|
      && Get(file[pos..pos + 4]) == |ct|
      && file[pos + 4..pos + 4 + |ct|] == ct
  {
    var file, pos := before + (Frame(ct) + after), |before|;
    Spans();
    GetPut(|ct|, 4);
    hide Get, Put;
    var len := Put(|ct|, 4);
    assert Frame(ct) == len + ct && |len| == 4;
    assert file == before + len + ct + after;
    assert file[pos..pos + 4] == len;
  }

  // The table opens everything the recording sealed.
  ghost predicate Opens(seal: Sealer, f: FileId, rec: Recording, table: Table)
    requires rec.frames <= FrameCount(rec.data)
  {
    forall key :: key in Sealed(seal, f, rec) ==> key in table && table[key] == Sealed(seal, f, rec)[key]
  }

  lemma {:induction false} SealedHasFrame(seal: Sealer, f: FileId, rec: Recording, n: nat)
    requires Sound(rec) && rec.final && n < rec.frames
    ensures var key := KeyOf(seal, f, n, false, ChunkAt(rec.data, n));
      key in Sealed(seal, f, rec) && Sealed(seal, f, rec)[key] == ChunkAt(rec.data, n)
  {
    hide Nonce, Aad, ChunkAt, FrameCount;
    FrameIsSealed(seal, f, rec.data, rec.frames, n);
    NonceRepeats(n, FrameCount(rec.data));
  }

  lemma {:induction false} DecodeHonest(seal: Sealer, f: FileId, rec: Recording, table: Table, n: nat)
    requires AddsTag(seal) && Sound(rec) && rec.final && Opens(seal, f, rec, table)
    requires n <= FrameCount(rec.data)
    ensures var file := FileOf(seal, f, rec.data); var pos := |Prefix(seal, f, rec.data, n)|;
      && pos <= |file|
      && DataUpTo(rec.data, n) + Decode(table, f, file, true, pos, n).plain == rec.data
      && Decode(table, f, file, true, pos, n).ending == Complete
    decreases FrameCount(rec.data) - n
  {
    hide ChunkAt, FrameCount, DataUpTo, Sealed, Nonce, Aad, ReadFrame, FileOf, Frame;
    var data := rec.data;
    var before, file := Prefix(seal, f, data, n), FileOf(seal, f, data);
    FileSplits(seal, f, data, n);
    if n < FrameCount(data) {
      var key := KeyOf(seal, f, n, false, ChunkAt(data, n));
      SealedHasFrame(seal, f, rec, n);
      assert 0 < |ChunkAt(data, n)| <= CHUNK;
      ReadsSealedFrame(table, f, before, key, Suffix(seal, f, data, n + 1), true, n, false);
      DecodeHonest(seal, f, rec, table, n + 1);
      DataUpToStep(data, n);
      var rest := Decode(table, f, file, true, |Prefix(seal, f, data, n + 1)|, n + 1);
      assert DataUpTo(data, n) + (ChunkAt(data, n) + rest.plain) == DataUpTo(data, n + 1) + rest.plain;
    } else {
      var key := KeyOf(seal, f, n, true, []);
      FinalIsSealed(seal, f, rec);
      ReadsSealedFrame(table, f, before, key, [], true, n, true);
      assert before + (Frame(key.ct) + []) == before + Suffix(seal, f, data, n) by {
        assert Frame(key.ct) + [] == Frame(key.ct);
      }
      DataUpToAll(data);
    }
  }

  lemma FinalIsSealed(seal: Sealer, f: FileId, rec: Recording)
    requires Sound(rec) && rec.final
    ensures KeyOf(seal, f, FrameCount(rec.data), true, []) in Sealed(seal, f, rec)
  {
  }

  /** Reading back the file of a closed recording completes with exactly its data. */
  lemma {:induction false} OpenHonest(seal: Sealer, f: FileId, rec: Recording, table: Table)
    requires AddsTag(seal) && Sound(rec) && rec.final && Opens(seal, f, rec, table)
    ensures OpenFile(table, FileOf(seal, f, rec.data), true) == Decoded(rec.data, Complete)
  {
    hide Decode, FrameCount, Suffix, Sealed;
    var file := FileOf(seal, f, rec.data);
    FileSplits(seal, f, rec.data, 0);
    assert file[..HEADER_LEN] == Header(f);
    DecodeHonest(seal, f, rec, table, 0);
    assert Header(f)[5..] == f && Header(f)[..4] == MAGIC;
    assert file[5..HEADER_LEN] == file[..HEADER_LEN][5..] && file[..4] == file[..HEADER_LEN][..4];
    assert DataUpTo(rec.data, 0) == [];
  }

  /** The data frames cut the data into full chunks and one non-empty remainder, in order, and
      no two frames of the file share a nonce. */
  lemma {:induction false} FrameLayout(data: Bytes, k: nat, l: nat)
    requires k < l <= FrameCount(data) < UINT64_SPAN
    ensures |ChunkAt(data, k)| == if k + 1 < FrameCount(data) then CHUNK else |data| - k * CHUNK
    ensures DataUpTo(data, k) + ChunkAt(data, k) == DataUpTo(data, k + 1)
    ensures DataUpTo(data, 0) == [] && DataUpTo(data, FrameCount(data)) == data
    ensures Nonce(k) != Nonce(l)
  {
    hide Nonce;
    DataUpToStep(data, k);
    NonceRepeats(k, l);
  }
}
