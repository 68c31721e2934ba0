/** The framed writer: plaintext is buffered, each full chunk is sealed and written at once, and
    closing writes the remainder and the final frame. The file below may fail at any write. */
module CastWriter {
  import opened BigEndian
  import opened CastFormat
  import opened CastLaws

  // The file written to. A write may fail after any part of it reached the file.
  class Sink {
    var data: Bytes

    constructor ()
      ensures data == []
    {
      data := [];
    }

    method Write(p: Bytes) returns (ok: bool)
      modifies this
      ensures ok ==> data == old(data) + p
      ensures old(data) <= data <= old(data) + p
    {
      if * {
        data := data + p;
        ok := true;
      } else {
        var part :| 0 <= part <= |p|;
        data := data + p[..part];
        ok := false;
      }
    }

    method Close() returns (ok: bool) {
      if * {
        ok := true;
      } else {
        ok := false;
      }
    }
  }

  datatype WriteError = SinkFailed | WriteAfterClose | CloseFailed
  datatype Result = Ok | Err(error: WriteError)

  // Frames are unaffected by data appended after them.
  lemma {:induction false} PrefixGrows(seal: Sealer, f: FileId, data: Bytes, more: Bytes, n: nat)
    requires n * CHUNK <= |data|
    ensures n <= FrameCount(data) && n <= FrameCount(data + more)
    ensures Prefix(seal, f, data + more, n) == Prefix(seal, f, data, n)
    ensures SealedFrames(seal, f, data + more, n) == SealedFrames(seal, f, data, n)
  {
    hide Frame, KeyOf, Header;
    if n > 0 {
      PrefixGrows(seal, f, data, more, n - 1);
      assert ChunkAt(data + more, n - 1) == ChunkAt(data, n - 1);
    }
  }

  // The counter wraps at 64 bits, and so does its encoding.
  lemma {:induction false} KeyWraps(seal: Sealer, f: FileId, n: nat, final: bool, pt: Bytes)
    ensures KeyOf(seal, f, n % UINT64_SPAN, final, pt) == KeyOf(seal, f, n, final, pt)
  {
    NonceRepeats(n % UINT64_SPAN, n);
    AadBinds(f, n % UINT64_SPAN, final, |pt|, f, n, final, |pt|);
  }

  // The remainder behind the full chunks.
  lemma PartChunk(data: Bytes, n: nat)
    requires n == |data| / CHUNK
    ensures n * CHUNK <= |data|
    ensures FrameCount(data) == if data[n * CHUNK..] == [] then n else n + 1
    ensures data[n * CHUNK..] != [] ==> ChunkAt(data, n) == data[n * CHUNK..]
  {
  }

  lemma FullChunk(data: Bytes, n: nat)
    requires (n + 1) * CHUNK == |data|
    ensures n + 1 == FrameCount(data) == |data| / CHUNK
    ensures ChunkAt(data, n) == data[n * CHUNK..]
    ensures data[(n + 1) * CHUNK..] == []
  {
  }

  // The next frame, sealed under the wrapped counter, in the log and in the file.
  lemma SealedStep(seal: Sealer, f: FileId, data: Bytes, n: nat)
    requires n < FrameCount(data)
    ensures var chunk := ChunkAt(data, n);
      var key := KeyOf(seal, f, n % UINT64_SPAN, false, chunk);
      && SealedFrames(seal, f, data, n + 1) == SealedFrames(seal, f, data, n)[key := chunk]
      && Prefix(seal, f, data, n + 1) == Prefix(seal, f, data, n) + Frame(key.ct)
      && Prefix(seal, f, data, n + 1) <= FileOf(seal, f, data)
    ensures NextIndex(n % UINT64_SPAN) == (n + 1) % UINT64_SPAN
  {
    hide KeyOf, Frame, FileOf, Suffix, ChunkAt, FrameCount;
    KeyWraps(seal, f, n, false, ChunkAt(data, n));
    FileSplits(seal, f, data, n + 1);
  }

  class EncWriter {
    const sink: Sink
    const seal: Sealer
    const file: FileId
    var buf: Bytes
    var frameIdx: nat
    var err: Result
    var closed: bool
    // The ideal AEAD's memory: what was sealed through this writer.
    var log: Table
    // The bytes accepted so far, and what was sealed of them.
    ghost var accepted: Bytes
    ghost var rec: Recording

    // Whatever failed, the log is what was sealed and the file is a beginning of the full one.
    ghost predicate Consistent()
      reads this`accepted, this`rec, this`log, sink
    {
      && AddsTag(seal)
      && rec.data == accepted
      && rec.frames <= FrameCount(accepted)
      && (rec.final ==> rec.frames == FrameCount(accepted))
      && log == Sealed(seal, file, rec)
      && sink.data <= FileOf(seal, file, accepted)
    }

    ghost predicate Valid()
      reads this, sink
    {
      && Consistent()
      && (err.Ok? && !closed ==> Open())
      && (err.Ok? && closed ==>
           rec == Recording(accepted, FrameCount(accepted), true) && sink.data == FileOf(seal, file, accepted))
    }

    // Accepting bytes: full chunks are in the file, the rest is buffered.
    ghost predicate Open()
      reads this`buf, this`frameIdx, this`accepted, this`rec, sink
    {
      && |buf| < CHUNK
      && rec == Recording(accepted, |accepted| / CHUNK, false)
      && buf == accepted[rec.frames * CHUNK..]
      && frameIdx == rec.frames % UINT64_SPAN
      && rec.frames <= FrameCount(accepted)
      && sink.data == Prefix(seal, file, accepted, rec.frames)
    }

    // Closing: every data frame is in the file, the final one is not sealed yet.
    ghost predicate AllFlushed()
      reads this, sink
    {
      && buf == []
      && rec == Recording(accepted, FrameCount(accepted), false)
      && frameIdx == rec.frames % UINT64_SPAN
      && sink.data == Prefix(seal, file, accepted, rec.frames)
    }

    constructor (sink: Sink, seal: Sealer, file: FileId)
      requires AddsTag(seal) && sink.data == Header(file)
      ensures Valid() && err.Ok? && !closed && accepted == []
      ensures this.sink == sink && this.seal == seal && this.file == file
    {
      this.sink, this.seal, this.file := sink, seal, file;
      buf, frameIdx, err, closed := [], 0, Ok, false;
      accepted, rec, log := [], Recording([], 0, false), map[];
      new;
      FileSplits(seal, file, [], 0);
    }

    // Seal the buffer as one frame and write its length and ciphertext.
    method FlushFrame(final: bool) returns (ok: bool)
      requires |buf| <= CHUNK && err.Ok?
      modifies this`buf, this`frameIdx, this`err, this`log, sink
      ensures ok <==> err.Ok?
      ensures var key := KeyOf(seal, file, old(frameIdx), final, old(buf));
        && log == old(log)[key := old(buf)]
        && old(sink.data) <= sink.data <= old(sink.data) + Frame(key.ct)
        && (ok ==> sink.data == old(sink.data) + Frame(key.ct))
      ensures ok ==> frameIdx == NextIndex(old(frameIdx)) && buf == []
    {
      var nonce := Nonce(frameIdx);
      var aad := Aad(file, frameIdx, final, |buf|);
      var ct := seal(file, nonce, aad, buf);
      log := log[KeyOf(seal, file, frameIdx, final, buf) := buf];
      ok := sink.Write(Put(|ct|, 4));
      if !ok {
        err := Err(SinkFailed);
        return;
      }
      ok := sink.Write(ct);
      if !ok {
        err := Err(SinkFailed);
        return;
      }
      frameIdx := NextIndex(frameIdx);
      buf := [];
    }

    // Accept a part that fits the buffer; flush when it is full.
    method Take(part: Bytes)
      requires Valid() && err.Ok? && !closed && |buf| + |part| <= CHUNK
      modifies this, sink
      ensures Valid() && !closed && accepted == old(accepted) + part
    {
      hide Prefix, SealedFrames, KeyOf, Frame, FileOf, Suffix;
      PrefixGrows(seal, file, accepted, part, rec.frames);
      FileSplits(seal, file, accepted + part, rec.frames);
      buf := buf + part;
      accepted := accepted + part;
      rec := Recording(accepted, rec.frames, false);
      if |buf| == CHUNK {
        FlushFull();
      }
    }

    // Seal the full buffer.
    method FlushFull()
      requires Consistent() && err.Ok? && !closed
      requires |buf| == CHUNK && !rec.final && (rec.frames + 1) * CHUNK == |accepted|
      requires buf == accepted[rec.frames * CHUNK..] && frameIdx == rec.frames % UINT64_SPAN
      requires sink.data == Prefix(seal, file, accepted, rec.frames)
      modifies this`buf, this`frameIdx, this`err, this`log, this`rec, sink
      ensures Valid() && !closed
    {
      hide Prefix, SealedFrames, KeyOf, Frame, FileOf, ChunkAt, FrameCount, NextIndex;
      FullChunk(accepted, rec.frames);
      SealedStep(seal, file, accepted, rec.frames);
      rec := Recording(accepted, rec.frames + 1, false);
      var ok := FlushFrame(false);
    }

    // Accept p chunk by chunk. On a write error the rest of p is not taken.
    method Write(p: Bytes) returns (n: nat, r: Result)
      requires Valid()
      modifies this, sink
      ensures Valid() && closed == old(closed)
      ensures n <= |p| && accepted == old(accepted) + p[..n]
      ensures old(err).Err? ==> n == 0 && r == old(err) && err == old(err) && sink.data == old(sink.data)
      ensures old(err).Ok? && closed ==> n == 0 && r == Err(WriteAfterClose) && err.Ok? && sink.data == old(sink.data)
      ensures old(err).Ok? && !closed ==> r == err && (r.Ok? ==> n == |p|)
    {
      hide Prefix, Sealed, FileOf, FrameCount, Consistent;
      if err.Err? {
        return 0, err;
      }
      if closed {
        return 0, Err(WriteAfterClose);
      }
      n := 0;
      while n < |p|
        invariant Valid() && err.Ok? && !closed
        invariant n <= |p| && accepted == old(accepted) + p[..n]
        decreases |p| - n
      {
        var space := CHUNK - |buf|;
        var k := if |p| - n <= space then |p| - n else space;
        Take(p[n..n + k]);
        n := n + k;
        if err.Err? {
          return n, err;
        }
      }
      return n, Ok;
    }

    // Seal a buffered remainder as the last data frame.
    method FlushRest()
      requires Consistent() && Open() && err.Ok?
      modifies this`buf, this`frameIdx, this`err, this`log, this`rec, sink
      ensures Consistent() && (err.Ok? ==> AllFlushed())
    {
      hide Prefix, SealedFrames, KeyOf, Frame, FileOf, ChunkAt, FrameCount, NextIndex;
      PartChunk(accepted, rec.frames);
      if |buf| > 0 {
        SealedStep(seal, file, accepted, rec.frames);
        rec := Recording(accepted, rec.frames + 1, false);
        var ok := FlushFrame(false);
      }
    }

    // Seal the empty final frame.
    method FlushFinal()
      requires Consistent() && AllFlushed() && err.Ok?
      modifies this`buf, this`frameIdx, this`err, this`log, this`rec, sink
      ensures Consistent()
      ensures rec == Recording(accepted, FrameCount(accepted), true)
      ensures err.Ok? ==> sink.data == FileOf(seal, file, accepted)
    {
      hide Prefix, SealedFrames, KeyOf, Frame, Suffix;
      KeyWraps(seal, file, rec.frames, true, []);
      rec := Recording(accepted, FrameCount(accepted), true);
      var ok := FlushFrame(true);
    }

    // Flush the remainder, write the final frame, close the file. Closing again changes nothing.
    method Close() returns (r: Result)
      requires Valid()
      modifies this, sink
      ensures Valid() && closed && accepted == old(accepted) && r == err
      ensures old(closed) || old(err).Err? ==> err == old(err) && sink.data == old(sink.data)
      ensures r.Ok? ==>
        sink.data == FileOf(seal, file, accepted) && rec == Recording(accepted, FrameCount(accepted), true)
    {
      hide Prefix, Sealed, FrameCount, FileOf, Consistent;
      if closed {
        return err;
      }
      closed := true;
      if err.Err? {
        var _ := sink.Close();
        return err;
      }
      FlushRest();
      if err.Err? {
        var _ := sink.Close();
        return err;
      }
      FlushFinal();
      if err.Err? {
        var _ := sink.Close();
        return err;
      }
      var ok := sink.Close();
      if !ok {
        err := Err(CloseFailed);
      }
      return err;
    }
  }

  // Write the header and return a writer ready for data; the caller keeps the file on failure.
  method NewEncWriter(sink: Sink, seal: Sealer, file: FileId) returns (w: EncWriter?)
    requires AddsTag(seal) && sink.data == []
    modifies sink
    ensures w != null ==>
      && fresh(w) && w.Valid() && w.err.Ok? && !w.closed && w.accepted == []
      && w.sink == sink && w.seal == seal && w.file == file
  {
    var ok := sink.Write(MAGIC + [FORMAT_VERSION] + file);
    if !ok {
      return null;
    }
    w := new EncWriter(sink, seal, file);
  }
}
