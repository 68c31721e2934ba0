/** The framed reader: frames are opened on demand and handed out in pieces of the caller's
    size. */
module CastReader {
  import opened BigEndian
  import opened CastFormat
  import opened CastLaws
  import opened CastWriter

  datatype Status = Fine | Eof | Error(error: ReadError)

  // The file read from: its bytes, and whether it then ends cleanly or its source fails.
  class Source {
    const data: Bytes
    const clean: bool
    var pos: nat

    ghost predicate Valid()
      reads this
    {
      pos <= |data|
    }

    constructor (data: Bytes, clean: bool)
      ensures Valid() && pos == 0 && this.data == data && this.clean == clean
    {
      this.data, this.clean, pos := data, clean, 0;
    }

    // Read exactly n bytes; atEnd tells a clean end before the first of them from the rest.
    method ReadFull(n: nat) returns (ok: bool, atEnd: bool, p: Bytes)
      requires Valid()
      modifies this
      ensures Valid()
      ensures ok <==> old(pos) + n <= |data|
      ensures ok ==> pos == old(pos) + n && p == data[old(pos)..pos]
      ensures atEnd <==> !ok && clean && old(pos) == |data|
    {
      if pos + n <= |data| {
        ok, atEnd, p := true, false, data[pos..pos + n];
        pos := pos + n;
      } else {
        ok, atEnd, p := false, clean && pos == |data|, data[pos..];
        pos := |data|;
      }
    }
  }

  ghost function Behind(before: Bytes, d: Decoded): Decoded {
    Decoded(before + d.plain, d.ending)
  }

  class DecReader {
    const src: Source
    const table: Table
    const file: FileId
    var frameIdx: nat
    var plaintext: Bytes
    var off: nat
    var done: bool
    var err: Status
    // Everything this reader decodes to, and what it has handed out.
    ghost const all: Decoded
    ghost var handed: Bytes

    ghost predicate Valid()
      reads this, src
    {
      && src.Valid()
      && off <= |plaintext|
      && (!err.Error? && !done ==>
           all == Behind(handed + plaintext[off..], Decode(table, file, src.data, src.clean, src.pos, frameIdx)))
      && (!err.Error? && done ==> all == Decoded(handed, Complete) && off == |plaintext|)
      && (err.Error? ==> all == Decoded(handed, Failed(err.error)))
    }

    constructor (src: Source, table: Table, file: FileId)
      requires src.Valid()
      ensures Valid() && handed == []
      ensures all == Decode(table, file, src.data, src.clean, src.pos, 0)
      ensures this.src == src
    {
      this.src, this.table, this.file := src, table, file;
      frameIdx, plaintext, off, done, err, handed := 0, [], 0, false, Fine, [];
      all := Decode(table, file, src.data, src.clean, src.pos, 0);
    }

    // Copy up to size bytes of decrypted plaintext, opening the next frame when none is left.
    method Read(size: nat) returns (p: Bytes, status: Status)
      requires Valid()
      modifies this, src
      ensures Valid() && handed == old(handed) + p && |p| <= size
      ensures status.Fine? && size > 0 ==> p != []
      ensures status.Eof? ==> p == [] && all == Decoded(handed, Complete)
      ensures status.Error? ==> p == [] && all == Decoded(handed, Failed(status.error))
    {
      if err.Error? {
        return [], err;
      }
      while off >= |plaintext|
        invariant Valid() && !err.Error? && handed == old(handed)
        decreases !done, |src.data| - src.pos
      {
        if done {
          return [], Eof;
        }
        var e := NextFrame();
        if e.Error? {
          err := e;
          return [], e;
        }
      }
      var n := if size <= |plaintext| - off then size else |plaintext| - off;
      p := plaintext[off..off + n];
      assert (handed + p) + plaintext[off + n..] == handed + plaintext[off..];
      off := off + n;
      handed := handed + p;
      return p, Fine;
    }

    // Read, authenticate and open the next frame.
    method NextFrame() returns (e: Status)
      requires Valid() && !err.Error? && !done && off == |plaintext|
      modifies this`frameIdx, this`plaintext, this`off, this`done, src
      ensures e.Error? ==> all == Decoded(handed, Failed(e.error)) && src.Valid() && off <= |plaintext|
      ensures !e.Error? ==> Valid() && (done || old(src.pos) < src.pos)
    {
      hide Nonce, Aad;
      assert plaintext[off..] == [] && handed + [] == handed;
      var ok, atEnd, lenBuf := src.ReadFull(4);
      if !ok {
        return Error(if atEnd then MissingFinal else ReadLength);
      }
      var ctLen := Get(lenBuf);
      if ctLen < TAG {
        return Error(FrameCorrupt);
      }
      if ctLen > CHUNK + TAG {
        return Error(FrameTooLarge);
      }
      var ct;
      ok, atEnd, ct := src.ReadFull(ctLen);
      if !ok {
        return Error(ReadBody);
      }
      var ptLen := ctLen - TAG;
      var final := ptLen == 0;
      var key := SealKey(file, Nonce(frameIdx), Aad(file, frameIdx, final, ptLen), ct);
      if key !in table {
        return Error(AuthFailed);
      }
      frameIdx := NextIndex(frameIdx);
      if final {
        // the final frame must be the physical end of the file
        var _, end, _ := src.ReadFull(1);
        if !end {
          return Error(TrailingAfterFinal);
        }
        done, plaintext, off := true, [], 0;
        return Fine;
      }
      plaintext, off := table[key], 0;
      return Fine;
    }
  }

  // Read and check the header; a reader then stands at the first frame.
  method NewDecReader(src: Source, table: Table) returns (r: DecReader?, e: Status)
    requires src.Valid() && src.pos == 0
    modifies src
    ensures r != null ==>
      fresh(r) && r.Valid() && r.src == src && r.handed == [] && r.all == OpenFile(table, src.data, src.clean)
    ensures r == null ==> e.Error? && OpenFile(table, src.data, src.clean) == Decoded([], Failed(e.error))
  {
    hide Decode;
    var ok, atEnd, hdr := src.ReadFull(HEADER_LEN);
    if !ok {
      return null, Error(BadHeader);
    }
    if hdr[..4] != MAGIC {
      return null, Error(BadMagic);
    }
    if hdr[4] != FORMAT_VERSION {
      return null, Error(UnsupportedVersion);
    }
    assert hdr[..4] == src.data[..4] && hdr[5..HEADER_LEN] == src.data[5..HEADER_LEN];
    var file: FileId := hdr[5..HEADER_LEN];
    r := new DecReader(src, table, file);
    e := Fine;
  }

  // Read to the end with the caller's sequence of buffer sizes.
  method ReadAll(r: DecReader, sizes: nat -> nat) returns (got: Bytes, ending: Status)
    requires r.Valid() && r.handed == []
    requires forall k :: sizes(k) > 0
    modifies r, r.src
    ensures r.all == Decoded(got, if ending.Error? then Failed(ending.error) else Complete)
  {
    got := [];
    var k := 0;
    while true
      invariant r.Valid() && r.handed == got && |got| <= |r.all.plain|
      decreases |r.all.plain| - |got|
    {
      var p, status := r.Read(sizes(k));
      assert |r.handed| <= |r.all.plain|;
      got := got + p;
      if !status.Fine? {
        return got, status;
      }
      k := k + 1;
    }
  }

  function Concat(parts: seq<Bytes>): Bytes {
    if parts == [] then [] else Concat(parts[..|parts| - 1]) + parts[|parts| - 1]
  }

  /** Write the parts, close, read the file back in pieces of any sizes: unless a write failed,
      exactly the concatenation of the parts comes back, whatever the parts and the sizes, and
      the file is the one file of that concatenation. */
  method RoundTrip(seal: Sealer, file: FileId, parts: seq<Bytes>, sizes: nat -> nat)
    returns (written: bool, stored: Bytes, got: Bytes)
    requires AddsTag(seal)
    requires FrameCount(Concat(parts)) < UINT64_SPAN
    requires forall k :: sizes(k) > 0
    ensures written ==> stored == FileOf(seal, file, Concat(parts)) && got == Concat(parts)
  {
    hide FileOf, Sealed, FrameCount;
    var sink := new Sink();
    var w := NewEncWriter(sink, seal, file);
    if w == null {
      return false, sink.data, [];
    }
    for k := 0 to |parts|
      invariant fresh(w) && w.Valid() && w.err.Ok? && !w.closed && w.sink == sink && w.seal == seal && w.file == file
      invariant w.accepted == Concat(parts[..k])
    {
      var n, r := w.Write(parts[k]);
      if r.Err? {
        return false, sink.data, [];
      }
      assert parts[k][..n] == parts[k] && parts[..k + 1][..k] == parts[..k];
    }
    assert parts[..|parts|] == parts;
    var r := w.Close();
    if r.Err? {
      return false, sink.data, [];
    }
    written, stored := true, sink.data;
    got := ReadBack(seal, file, w.rec, w.log, stored, sizes);
  }

  method ReadBack(seal: Sealer, file: FileId, ghost rec: Recording, table: Table, stored: Bytes, sizes: nat -> nat)
    returns (got: Bytes)
    requires AddsTag(seal) && Sound(rec) && rec.final && stored == FileOf(seal, file, rec.data)
    requires Opens(seal, file, rec, table)
    requires forall k :: sizes(k) > 0
    ensures got == rec.data
  {
    hide FileOf, OpenFile, Sealed, Decode;
    OpenHonest(seal, file, rec, table);
    var src := new Source(stored, true);
    var r, e := NewDecReader(src, table);
    assert r != null;
    var ending;
    got, ending := ReadAll(r, sizes);
  }

  /** Reading any stored bytes, in pieces of any sizes: what is handed out is a prefix of what
      was recorded under the file's id, and the end is reached only on the exact file of a
      closed recording, with all of its data handed out. */
  method ReadAny(ghost seal: Sealer, ghost world: World, table: Table, stored: Bytes, clean: bool, sizes: nat -> nat)
    returns (got: Bytes, ending: Status)
    requires Ideal(seal, world, table)
    requires forall k :: sizes(k) > 0
    ensures got != [] ==>
      HEADER_LEN <= |stored| && stored[5..HEADER_LEN] in world && got <= world[stored[5..HEADER_LEN]].data
    ensures !ending.Error? ==>
      exists f :: f in world && world[f].final && stored == FileOf(seal, f, world[f].data) && got == world[f].data
  {
    hide FileOf, OpenFile, Ideal;
    OpenAuthentic(seal, world, table, stored, clean);
    var src := new Source(stored, clean);
    var r, e := NewDecReader(src, table);
    if r == null {
      return [], e;
    }
    got, ending := ReadAll(r, sizes);
  }
}
