/** The encrypted recording file: a header, data frames of at most one chunk, one empty final
    frame. Sealing is an ideal AEAD: a ciphertext opens only if it is in the table of what was
    sealed under the same file, nonce and associated data. */
module CastFormat {
  import opened BigEndian

  const MAGIC: Bytes := [71, 70, 67, 49] // "GFC1"
  const FORMAT_VERSION: Byte := 1
  const FILE_ID_LEN := 16
  const CHUNK := 16 * 1024
  const TAG := 16
  const HEADER_LEN := 4 + 1 + FILE_ID_LEN

  type FileId = s: Bytes | |s| == FILE_ID_LEN witness seq(FILE_ID_LEN, _ => 0)

  // A per-file counter nonce: four zero bytes and the frame index.
  function Nonce(index: nat): Bytes {
    [0, 0, 0, 0] + Put(index, 8)
  }

  // The associated data of one frame.
  function Aad(file: FileId, index: nat, final: bool, length: nat): Bytes {
    MAGIC + [FORMAT_VERSION] + file + Put(index, 8) + [if final then 1 else 0] + Put(length, 4)
  }

  /** Two frames share a nonce exactly when their indices agree modulo 2^64, so no nonce of a
      file repeats within 2^64 frames. */
  lemma {:induction false} NonceRepeats(m: nat, n: nat)
    ensures Nonce(m) == Nonce(n) <==> m % UINT64_SPAN == n % UINT64_SPAN
  {
    Spans();
    PutInjective(m, n, 8);
    assert Nonce(m)[4..] == Put(m, 8) && Nonce(n)[4..] == Put(n, 8);
  }

  /** The associated data binds the file, the index, the final flag and the length. */
  lemma {:induction false} AadBinds(f: FileId, m: nat, a: bool, k: nat, g: FileId, n: nat, b: bool, l: nat)
    ensures Aad(f, m, a, k) == Aad(g, n, b, l) <==>
      f == g && m % UINT64_SPAN == n % UINT64_SPAN && a == b && k % UINT32_SPAN == l % UINT32_SPAN
  {
    Spans();
    PutInjective(m, n, 8);
    PutInjective(k, l, 4);
    AadFields(f, m, a, k);
    AadFields(g, n, b, l);
  }

  lemma AadFields(f: FileId, m: nat, a: bool, k: nat)
    ensures var s := Aad(f, m, a, k);
      |s| == 34 && s[5..21] == f && s[21..29] == Put(m, 8) && s[29] == (if a then 1 else 0) && s[30..] == Put(k, 4)
  {
  }

  // How plaintext is sealed, and what is known to have been sealed.
  type Sealer = (FileId, Bytes, Bytes, Bytes) -> Bytes

  ghost predicate AddsTag(seal: Sealer) {
    forall f, n, a, p :: |seal(f, n, a, p)| == |p| + TAG
  }

  datatype SealKey = SealKey(file: FileId, nonce: Bytes, aad: Bytes, ct: Bytes)
  type Table = map<SealKey, Bytes>

  // The key a frame is sealed under.
  function KeyOf(seal: Sealer, f: FileId, index: nat, final: bool, pt: Bytes): SealKey {
    var nonce, aad := Nonce(index), Aad(f, index, final, |pt|);
    SealKey(f, nonce, aad, seal(f, nonce, aad, pt))
  }

  function Frame(ct: Bytes): Bytes {
    Put(|ct|, 4) + ct
  }

  function Header(f: FileId): Bytes {
    MAGIC + [FORMAT_VERSION] + f
  }

  // How many frames the data fills, the last one possibly in part.
  function FrameCount(data: Bytes): nat {
    (|data| + CHUNK - 1) / CHUNK
  }

  function ChunkAt(data: Bytes, k: nat): (c: Bytes)
    requires k < FrameCount(data)
    ensures 0 < |c| <= CHUNK
  {
    data[k * CHUNK..if (k + 1) * CHUNK <= |data| then (k + 1) * CHUNK else |data|]
  }

  // The header and the first n data frames.
  function Prefix(seal: Sealer, f: FileId, data: Bytes, n: nat): Bytes
    requires n <= FrameCount(data)
  {
    if n == 0 then Header(f)
    else Prefix(seal, f, data, n - 1) + Frame(KeyOf(seal, f, n - 1, false, ChunkAt(data, n - 1)).ct)
  }

  // The whole file of a closed recording.
  function FileOf(seal: Sealer, f: FileId, data: Bytes): Bytes {
    Prefix(seal, f, data, FrameCount(data)) + Frame(KeyOf(seal, f, FrameCount(data), true, []).ct)
  }

  // What one writer has sealed so far: the first frames of its data, and the final frame.
  datatype Recording = Recording(data: Bytes, frames: nat, final: bool)

  ghost predicate Sound(rec: Recording) {
    && rec.frames <= FrameCount(rec.data) < UINT64_SPAN
    && (rec.final ==> rec.frames == FrameCount(rec.data))
  }

  function SealedFrames(seal: Sealer, f: FileId, data: Bytes, n: nat): Table
    requires n <= FrameCount(data)
  {
    if n == 0 then map[]
    else SealedFrames(seal, f, data, n - 1)[KeyOf(seal, f, n - 1, false, ChunkAt(data, n - 1)) := ChunkAt(data, n - 1)]
  }

  function Sealed(seal: Sealer, f: FileId, rec: Recording): Table
    requires rec.frames <= FrameCount(rec.data)
  {
    var t := SealedFrames(seal, f, rec.data, rec.frames);
    if rec.final then t[KeyOf(seal, f, FrameCount(rec.data), true, []) := []] else t
  }

  datatype ReadError =
    | BadHeader | BadMagic | UnsupportedVersion
    | MissingFinal | ReadLength | FrameCorrupt | FrameTooLarge | ReadBody
    | AuthFailed | TrailingAfterFinal

  datatype FrameRead = Data(pt: Bytes, next: nat) | Final | Bad(error: ReadError)

  // What reading one frame at an offset does. The file ends cleanly, or its source fails there.
  function ReadFrame(table: Table, f: FileId, file: Bytes, clean: bool, pos: nat, index: nat): (r: FrameRead)
    requires pos <= |file|
    ensures r.Data? ==> pos < r.next <= |file|
  {
    if pos + 4 > |file| then Bad(if clean && pos == |file| then MissingFinal else ReadLength)
    else
      var ctLen := Get(file[pos..pos + 4]);
      if ctLen < TAG then Bad(FrameCorrupt)
      else if ctLen > CHUNK + TAG then Bad(FrameTooLarge)
      else if pos + 4 + ctLen > |file| then Bad(ReadBody)
      else
        var ct := file[pos + 4..pos + 4 + ctLen];
        var final := ctLen == TAG;
        var key := SealKey(f, Nonce(index), Aad(f, index, final, ctLen - TAG), ct);
        if key !in table then Bad(AuthFailed)
        else if !final then Data(table[key], pos + 4 + ctLen)
        else if pos + 4 + ctLen < |file| || !clean then Bad(TrailingAfterFinal)
        else Final
  }

  function NextIndex(index: nat): nat { (index + 1) % UINT64_SPAN }

  datatype Ending = Complete | Failed(error: ReadError)
  datatype Decoded = Decoded(plain: Bytes, ending: Ending)

  // Everything a reader at an offset will still hand out, and how it ends.
  function Decode(table: Table, f: FileId, file: Bytes, clean: bool, pos: nat, index: nat): Decoded
    requires pos <= |file|
    decreases |file| - pos
  {
    match ReadFrame(table, f, file, clean, pos, index)
    case Bad(e) => Decoded([], Failed(e))
    case Final => Decoded([], Complete)
    case Data(pt, next) =>
      var rest := Decode(table, f, file, clean, next, NextIndex(index));
      Decoded(pt + rest.plain, rest.ending)
  }

  function OpenFile(table: Table, file: Bytes, clean: bool): Decoded {
    if |file| < HEADER_LEN then Decoded([], Failed(BadHeader))
    else if file[..4] != MAGIC then Decoded([], Failed(BadMagic))
    else if file[4] != FORMAT_VERSION then Decoded([], Failed(UnsupportedVersion))
    else Decode(table, file[5..HEADER_LEN], file, clean, HEADER_LEN, 0)
  }
}
