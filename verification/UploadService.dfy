/**
 The three upload endpoints over a table of recordings: preparing (which also serves resuming),
 uploading a chunk, and finalizing. Paths, headers and the database are reduced to the recording row
 and the two files' contents.
 */
module UploadService {
  import opened Bytes
  import opened ChunkedUpload

  datatype StoredFile = StoredFile(size: nat, content: Option<Data>, uploadedBytes: nat) {
    function Bytes(): Data {
      if content.Some? then content.value else []
    }
  }

  datatype Status = Uploading | Complete | Failed

  /** A recording row. Its files lie under the session it was first prepared for. */
  datatype Recording = Recording(session: string, video: StoredFile, sensor: StoredFile, status: Status)

  datatype UploadError = SessionNotFound | InvalidFileType | ChecksumMismatch | RecordingNotFound

  datatype Reply<T> = Ok(value: T) | Err(error: UploadError)

  datatype PrepareReply = PrepareReply(
    videoChunks: seq<Option<Data>>, sensorChunks: seq<Option<Data>>, videoUploaded: nat, sensorUploaded: nat)

  /** A chunk written: the file grows, and the high-water mark with it. */
  function Written(f: StoredFile, index: nat, body: Data): StoredFile {
    var end := index * CHUNK_SIZE + |body|;
    StoredFile(f.size, Some(WriteAt(f.Bytes(), index * CHUNK_SIZE, body)),
               if f.uploadedBytes >= end then f.uploadedBytes else end)
  }

  /** The high-water mark is the length of the file. */
  predicate Marked(f: StoredFile) {
    f.uploadedBytes == |f.Bytes()|
  }

  /** The stored chunks' digests match the announced final checksum. */
  predicate Matches(digest: Digest, f: StoredFile, final: Data) {
    CombinedChecksum(digest, if f.content.None? then [] else Digests(digest, Chunks(f.Bytes(), ChunkCount(f.size)))) == final
  }

  datatype ChunkWrite = ChunkWrite(index: nat, body: Data) {
    function Offset(): nat {
      index * CHUNK_SIZE
    }
  }

  /** Any run of accepted chunks, honest or not. */
  function AfterWrites(f: StoredFile, writes: seq<ChunkWrite>): StoredFile {
    if writes == [] then f else
    var last := writes[|writes| - 1];
    Written(AfterWrites(f, writes[..|writes| - 1]), last.index, last.body)
  }

  /** The mark is the file's length, or the offset of an empty chunk beyond its end. */
  ghost predicate MarkExplained(f: StoredFile, writes: seq<ChunkWrite>) {
    && f.uploadedBytes >= |f.Bytes()|
    && (forall i | 0 <= i < |writes| :: writes[i].Offset() + |writes[i].body| <= f.uploadedBytes)
    && (Marked(f) || exists i | 0 <= i < |writes| :: writes[i].body == [] && writes[i].Offset() == f.uploadedBytes)
  }

  lemma OneMoreWrite(f: StoredFile, writes: seq<ChunkWrite>, w: ChunkWrite)
    requires MarkExplained(f, writes)
    ensures MarkExplained(Written(f, w.index, w.body), writes + [w])
  {
    var g, all := Written(f, w.index, w.body), writes + [w];
    if w.body != [] {
      WrittenBytes(f.Bytes(), w.Offset(), w.body);
    }
    assert all[|writes|] == w;
    if g.uploadedBytes == f.uploadedBytes && !Marked(f) {
      var i :| 0 <= i < |writes| && writes[i].body == [] && writes[i].Offset() == f.uploadedBytes;
      assert all[i] == writes[i];
    }
  }

  lemma {:induction false} MarkStaysExplained(f: StoredFile, writes: seq<ChunkWrite>)
    requires Marked(f)
    ensures MarkExplained(AfterWrites(f, writes), writes)
  {
    if writes != [] {
      var prev, last := writes[..|writes| - 1], writes[|writes| - 1];
      MarkStaysExplained(f, prev);
      OneMoreWrite(AfterWrites(f, prev), prev, last);
      assert writes == prev + [last];
    }
  }

  /** How far a file of length `len` reaches after the writes: the farthest end of any that holds data. */
  function Reach(len: nat, writes: seq<ChunkWrite>): nat {
    if writes == [] then len else
    var prev, last := Reach(len, writes[..|writes| - 1]), writes[|writes| - 1];
    var end := last.Offset() + |last.body|;
    if last.body != [] && prev < end then end else prev
  }

  lemma {:induction false} LengthIsReach(f: StoredFile, writes: seq<ChunkWrite>)
    ensures |AfterWrites(f, writes).Bytes()| == Reach(|f.Bytes()|, writes)
  {
    if writes != [] {
      var prev, last := writes[..|writes| - 1], writes[|writes| - 1];
      LengthIsReach(f, prev);
      if last.body != [] {
        WrittenBytes(AfterWrites(f, prev).Bytes(), last.Offset(), last.body);
      }
    }
  }

  /** The last of the writes to touch byte `k` left this there. */
  function LastByte(writes: seq<ChunkWrite>, k: nat): Option<u8> {
    if writes == [] then None else
    var last := writes[|writes| - 1];
    if last.Offset() <= k < last.Offset() + |last.body| then Some(last.body[k - last.Offset()])
    else LastByte(writes[..|writes| - 1], k)
  }

  /** Byte `k` after the writes: the last written, else what was there, else the filling of a gap. */
  function ByteAfter(before: Data, writes: seq<ChunkWrite>, k: nat): u8 {
    var last := LastByte(writes, k);
    if last.Some? then last.value else if k < |before| then before[k] else 0
  }

  lemma {:induction false} ContentAfterWrites(f: StoredFile, writes: seq<ChunkWrite>, k: nat)
    requires k < Reach(|f.Bytes()|, writes)
    ensures |AfterWrites(f, writes).Bytes()| == Reach(|f.Bytes()|, writes)
    ensures AfterWrites(f, writes).Bytes()[k] == ByteAfter(f.Bytes(), writes, k)
  {
    LengthIsReach(f, writes);
    if writes != [] {
      var prev, last := writes[..|writes| - 1], writes[|writes| - 1];
      var g := AfterWrites(f, prev);
      LengthIsReach(f, prev);
      if last.body != [] {
        WrittenBytes(g.Bytes(), last.Offset(), last.body);
      }
      if !(last.Offset() <= k < last.Offset() + |last.body|) {
        if k < |g.Bytes()| {
          ContentAfterWrites(f, prev, k);
        } else {
          UntouchedBeyondReach(|f.Bytes()|, prev, k);
        }
      }
    }
  }

  lemma {:induction false} UntouchedBeyondReach(len: nat, writes: seq<ChunkWrite>, k: nat)
    requires k >= Reach(len, writes)
    ensures k >= len && LastByte(writes, k) == None
  {
    if writes != [] {
      UntouchedBeyondReach(len, writes[..|writes| - 1], k);
    }
  }

  /**
   After any run of chunks the mark is the file's length exactly when no empty chunk was sent for an
   offset beyond what the other chunks reach: writing nothing moves the mark but not the file.
   */
  lemma MarkIsLengthExactly(f: StoredFile, writes: seq<ChunkWrite>)
    requires Marked(f)
    ensures Marked(AfterWrites(f, writes))
       <==> forall i | 0 <= i < |writes| && writes[i].body == [] :: writes[i].Offset() <= Reach(|f.Bytes()|, writes)
  {
    LengthIsReach(f, writes);
    MarkStaysExplained(f, writes);
  }

  /** One empty chunk, sent for the second place of an empty file, is enough. */
  lemma EmptyChunkMovesOnlyTheMark()
    ensures var f := StoredFile(0, None, 0);
            var g := AfterWrites(f, [ChunkWrite(1, [])]);
            Marked(f) && !Marked(g) && g.Bytes() == [] && g.uploadedBytes == 1_048_576
  {
    var writes := [ChunkWrite(1, [])];
    assert writes[..0] == [];
    assert AfterWrites(StoredFile(0, None, 0), writes[..0]) == StoredFile(0, None, 0);
  }

  // ---------------------------------------------------------------------------------------
  // What a request does to the table of recordings
  // ---------------------------------------------------------------------------------------

  type Table = map<string, Recording>

  datatype Request =
    | Prepare(session: string, known: bool, id: string, videoSize: nat, sensorSize: nat)
    | Chunk(id: string, fileType: string, index: nat, expected: Data, body: Data)
    | Finalize(id: string, videoFinal: Data, sensorFinal: Data)

  function NewRecording(session: string, videoSize: nat, sensorSize: nat): Recording {
    Recording(session, StoredFile(videoSize, None, 0), StoredFile(sensorSize, None, 0), Uploading)
  }

  /** What a prepare for `session` finds of a file: files are looked for under the session of the request. */
  function Found(rec: Recording, session: string, f: StoredFile): Option<Data> {
    if rec.session == session then f.content else None
  }

  function FoundLength(rec: Recording, session: string, f: StoredFile): nat {
    if rec.session == session then |f.Bytes()| else 0
  }

  /** A row prepared again keeps everything but its marks, which are set to the lengths found. */
  function Resumed(rec: Recording, session: string): Recording {
    rec.(video := rec.video.(uploadedBytes := FoundLength(rec, session, rec.video)),
    sensor := rec.sensor.(uploadedBytes := FoundLength(rec, session, rec.sensor)))
  }

  /** The row before a prepare is carried out. */
  function RowFor(t: Table, id: string, session: string, videoSize: nat, sensorSize: nat): Recording {
    if id in t then t[id] else NewRecording(session, videoSize, sensorSize)
  }

  /** The chunk names one of the two files and carries the checksum of its body. */
  predicate Sound(digest: Digest, request: Request)
    requires request.Chunk?
  {
    request.fileType in {"video", "sensor"} && digest(request.body) == request.expected
  }

  function WithChunk(rec: Recording, fileType: string, index: nat, body: Data): Recording {
    if fileType == "video" then rec.(video := Written(rec.video, index, body))
    else rec.(sensor := Written(rec.sensor, index, body))
  }

  predicate BothMatch(digest: Digest, rec: Recording, videoFinal: Data, sensorFinal: Data) {
    Matches(digest, rec.video, videoFinal) && Matches(digest, rec.sensor, sensorFinal)
  }

  function Served(digest: Digest, t: Table, request: Request): Table {
    match request
    case Prepare(session, known, id, videoSize, sensorSize) =>
      if known then t[id := Resumed(RowFor(t, id, session, videoSize, sensorSize), session)] else t
    case Chunk(id, fileType, index, _, body) =>
      if Sound(digest, request) && id in t then t[id := WithChunk(t[id], fileType, index, body)] else t
    case Finalize(id, videoFinal, sensorFinal) =>
      if id in t then t[id := t[id].(status := if BothMatch(digest, t[id], videoFinal, sensorFinal) then Complete else Failed)]
      else t
  }

  class UploadService {
    const digest: Digest
    var recordings: map<string, Recording>

    constructor (digest: Digest)
      ensures this.digest == digest && recordings == map[]
    {
      this.digest, recordings := digest, map[];
    }

    /** Checks the body's checksum, then writes it at its offset and raises the high-water mark. */
    method UploadChunk(id: string, fileType: string, index: nat, expected: Data, body: Data) returns (r: Reply<nat>)
      modifies this
      ensures recordings == Served(digest, old(recordings), Chunk(id, fileType, index, expected, body))
      ensures r.Ok? <==> fileType in {"video", "sensor"} && digest(body) == expected && id in old(recordings)
      ensures r.Err? ==> recordings == old(recordings)
      ensures r == Err(RecordingNotFound) ==> id !in old(recordings)
      ensures r == Err(ChecksumMismatch) ==> digest(body) != expected
      ensures r.Ok? ==>
                && r.value == |body|
                && var rec := old(recordings)[id];
                recordings == old(recordings)[id :=
                if fileType == "video" then rec.(video := Written(rec.video, index, body))
                else rec.(sensor := Written(rec.sensor, index, body))]
    {
      if fileType != "video" && fileType != "sensor" {
        return Err(InvalidFileType);
      }
      var actual := digest(body);
      if actual != expected {
        return Err(ChecksumMismatch);
      }
      if id !in recordings {
        return Err(RecordingNotFound);
      }
      var rec := recordings[id];
      var file := if fileType == "video" then rec.video else rec.sensor;
      var offset := index * CHUNK_SIZE;
      var content := WriteAt(file.Bytes(), offset, body);
      var newUploaded := offset + |body|;
      var written := StoredFile(file.size, Some(content),
                                if file.uploadedBytes >= newUploaded then file.uploadedBytes else newUploaded);
      recordings := recordings[id := if fileType == "video" then rec.(video := written) else rec.(sensor := written)];
      r := Ok(|body|);
    }

    /**
     A new recording starts with empty files; a known one keeps its files, sizes and status. Its marks
     become the files' lengths exactly if it is prepared for the session it was first prepared for, or
     a file is empty. The reply tells the client which chunks were found. `known` is whether the
     database has the session.
     */
    method PrepareUpload(session: string, known: bool, id: string, videoSize: nat, sensorSize: nat)
      returns (reply: Reply<PrepareReply>)
      modifies this
      ensures recordings == Served(digest, old(recordings), Prepare(session, known, id, videoSize, sensorSize))
      ensures reply.Err? <==> !known
      ensures reply.Err? ==> reply.error == SessionNotFound && recordings == old(recordings)
      ensures known ==>
                && recordings.Keys == old(recordings).Keys + {id}
                && forall other | other in old(recordings) && other != id :: recordings[other] == old(recordings)[other]
      ensures known && id !in old(recordings) ==> recordings[id] == NewRecording(session, videoSize, sensorSize)
      ensures known && id in old(recordings) ==>
                var rec, before := recordings[id], old(recordings)[id];
                && rec.session == before.session && rec.status == before.status
                && rec.video.content == before.video.content && rec.video.size == before.video.size
                && rec.sensor.content == before.sensor.content && rec.sensor.size == before.sensor.size
                && (Marked(rec.video) <==> session == rec.session || rec.video.Bytes() == [])
                && (Marked(rec.sensor) <==> session == rec.session || rec.sensor.Bytes() == [])
      ensures known ==>
                var rec, r := recordings[id], reply.value;
                && r.videoChunks == Reported(digest, Found(rec, session, rec.video), videoSize)
                && r.sensorChunks == Reported(digest, Found(rec, session, rec.sensor), sensorSize)
                && r.videoUploaded == rec.video.uploadedBytes && r.sensorUploaded == rec.sensor.uploadedBytes
    {
      if !known {
        return Err(SessionNotFound);
      }
      var rec := if id in recordings then recordings[id] else NewRecording(session, videoSize, sensorSize);
      var video, sensor := Found(rec, session, rec.video), Found(rec, session, rec.sensor);
      var videoChunks := FileChecksums(digest, video, videoSize);
      var sensorChunks := FileChecksums(digest, sensor, sensorSize);
      var videoUploaded := if video.Some? then |video.value| else 0;
      var sensorUploaded := if sensor.Some? then |sensor.value| else 0;
      rec := rec.(video := rec.video.(uploadedBytes := videoUploaded),
      sensor := rec.sensor.(uploadedBytes := sensorUploaded));
      recordings := recordings[id := rec];
      reply := Ok(PrepareReply(videoChunks, sensorChunks, videoUploaded, sensorUploaded));
    }

    /** Complete exactly when both files match their announced checksums, otherwise failed. */
    method FinalizeUpload(id: string, videoFinal: Data, sensorFinal: Data) returns (r: Reply<(bool, bool)>)
      modifies this
      ensures recordings == Served(digest, old(recordings), Finalize(id, videoFinal, sensorFinal))
      ensures r.Err? <==> id !in old(recordings)
      ensures r.Err? ==> r.error == RecordingNotFound && recordings == old(recordings)
      ensures r.Ok? ==>
                var rec := old(recordings)[id];
                && r.value == (Matches(digest, rec.video, videoFinal), Matches(digest, rec.sensor, sensorFinal))
                && recordings == old(recordings)[id := rec.(status := if r.value.0 && r.value.1 then Complete else Failed)]
    {
      if id !in recordings {
        return Err(RecordingNotFound);
      }
      var rec := recordings[id];
      var videoChecksums := FileChecksums(digest, rec.video.content, rec.video.size);
      var videoVerified := CombinedChecksum(digest, Present(videoChecksums)) == videoFinal;
      var sensorChecksums := FileChecksums(digest, rec.sensor.content, rec.sensor.size);
      var sensorVerified := CombinedChecksum(digest, Present(sensorChecksums)) == sensorFinal;
      if rec.video.content.Some? {
        PresentIsChunks(digest, rec.video.Bytes(), rec.video.size);
      }
      if rec.sensor.content.Some? {
        PresentIsChunks(digest, rec.sensor.Bytes(), rec.sensor.size);
      }
      recordings := recordings[id := rec.(status := if videoVerified && sensorVerified then Complete else Failed)];
      r := Ok((videoVerified, sensorVerified));
    }
  }

  /** The same honest writes on a stored file: its content and mark after them. */
  function WrittenInOrder(f: StoredFile, original: Data, order: seq<nat>): StoredFile {
    if order == [] then f else
    var i := order[|order| - 1];
    Written(WrittenInOrder(f, original, order[..|order| - 1]), i, Block(original, i))
  }

  lemma {:induction false} WrittenIsUploaded(f: StoredFile, original: Data, order: seq<nat>)
    ensures var g := WrittenInOrder(f, original, order);
            && g.size == f.size && g.Bytes() == Uploaded(f.Bytes(), original, order)
            && g.uploadedBytes == Mark(f.uploadedBytes, original, order)
            && (order != [] ==> g.content.Some?)
  {
    if order != [] {
      WrittenIsUploaded(f, original, order[..|order| - 1]);
    }
  }

  /** The file agrees with the original over the chunks of the size it was recorded with. */
  predicate Agrees(f: StoredFile, original: Data) {
    Upto(f.Bytes(), Extent(f.size)) == original
  }

  /** No two of the things hashed to compare the file with the original have the same digest. */
  ghost predicate NoCollision(digest: Digest, f: StoredFile, original: Data) {
    FixedWidth(digest) && CollisionFree(digest, Hashed(digest, f.Bytes(), f.size, original))
  }

  lemma MatchIsVerifying(digest: Digest, f: StoredFile, original: Data)
    ensures Matches(digest, f, FinalChecksum(digest, original)) <==> Verifies(digest, f.Bytes(), f.size, original)
  {
    if f.content.None? {
      assert Digests(digest, Chunks([], ChunkCount(f.size))) == [];
    }
  }

  lemma AgreeingMatches(digest: Digest, f: StoredFile, original: Data)
    requires Agrees(f, original)
    ensures Matches(digest, f, FinalChecksum(digest, original))
  {
    MatchIsVerifying(digest, f, original);
    AgreeingVerifies(digest, f.Bytes(), f.size, original);
  }

  /**
   A match says what the file holds, whatever size the client announced: the original, over the chunks
   of the recorded size.
   */
  lemma MatchMeansSameContent(digest: Digest, f: StoredFile, original: Data)
    requires NoCollision(digest, f, original)
    ensures Matches(digest, f, FinalChecksum(digest, original)) <==> Agrees(f, original)
  {
    MatchIsVerifying(digest, f, original);
    VerifiesExactlyOnPrefix(digest, f.Bytes(), f.size, original);
  }

  /** A file that is the original matches exactly when it was recorded with at least as many chunks. */
  lemma OriginalMatchesExactly(digest: Digest, f: StoredFile, original: Data)
    requires f.Bytes() == original && NoCollision(digest, f, original)
    ensures Matches(digest, f, FinalChecksum(digest, original)) <==> ChunkCount(f.size) >= ChunkCount(|original|)
  {
    MatchIsVerifying(digest, f, original);
    OriginalVerifiesExactly(digest, f.size, original);
  }

  /**
   Uploading the original over this file can be finalized: it was recorded with enough chunks, and
   holds nothing beyond the original that is within them.
   */
  predicate Finalizable(f: StoredFile, original: Data) {
    |original| <= Extent(f.size) && (|f.Bytes()| <= |original| || |original| == Extent(f.size))
  }

  /** What an upload of the original over a file leaves: the original, and what the file had beyond it. */
  predicate UploadedOver(g: StoredFile, f: StoredFile, original: Data) {
    g.size == f.size && g.Bytes() == original + From(f.Bytes(), |original|)
  }

  lemma UploadedMatchesExactly(digest: Digest, g: StoredFile, f: StoredFile, original: Data)
    requires UploadedOver(g, f, original)
    ensures Finalizable(f, original) ==> Matches(digest, g, FinalChecksum(digest, original))
    ensures NoCollision(digest, g, original) ==>
              (Matches(digest, g, FinalChecksum(digest, original)) <==> Finalizable(f, original))
  {
    AgreesExactlyIfFinalizable(g, f, original);
    if Finalizable(f, original) {
      AgreeingMatches(digest, g, original);
    } else if NoCollision(digest, g, original) {
      MatchMeansSameContent(digest, g, original);
    }
  }

  lemma AgreesExactlyIfFinalizable(g: StoredFile, f: StoredFile, original: Data)
    requires UploadedOver(g, f, original)
    ensures Agrees(g, original) <==> Finalizable(f, original)
  {
    var extent := Extent(f.size);
    if |original| <= extent {
      assert g.Bytes()[..|original|] == original;
    } else {
      assert |Upto(g.Bytes(), extent)| == extent;
    }
  }

  /**
   An honest upload: after the original's chunks have been written in any order over any file, each at
   least once or already right, the content is the original followed by what the file had beyond it,
   the mark is its length, and the announced checksum matches exactly if the file was finalizable.
   */
  lemma HonestUploadMatches(digest: Digest, f: StoredFile, original: Data, order: seq<nat>)
    requires Marked(f) && InRange(order, original)
    requires forall i | 0 <= i < ChunkCount(|original|) :: i in order || Block(f.Bytes(), i) == Block(original, i)
    ensures var g := WrittenInOrder(f, original, order);
            && UploadedOver(g, f, original) && Marked(g)
            && (Finalizable(f, original) ==> Matches(digest, g, FinalChecksum(digest, original)))
            && (NoCollision(digest, g, original) ==>
                  (Matches(digest, g, FinalChecksum(digest, original)) <==> Finalizable(f, original)))
  {
    WrittenIsUploaded(f, original, order);
    ResumedUploadCompletes(f.Bytes(), original, order);
    UploadedMatchesExactly(digest, WrittenInOrder(f, original, order), f, original);
  }

  /** The chunks a resuming client may skip: those reported, for the size it announced, with the digest of its own chunk. */
  predicate Skippable(digest: Digest, found: Option<Data>, size: nat, original: Data, i: nat) {
    var reported := Reported(digest, found, size);
    i < |reported| && reported[i] == Some(digest(Block(original, i)))
  }

  /** Each chunk is sent, or was reported as matching and does not collide with what is there. */
  ghost predicate SentOrSkipped(digest: Digest, found: Option<Data>, size: nat, original: Data, order: seq<nat>) {
    forall i | 0 <= i < ChunkCount(|original|) ::
      || i in order
      || (&& Skippable(digest, found, size, original, i)
          && CollisionFree(digest, {Block(found.value, i), Block(original, i)}))
  }

  lemma SkippedIsThere(digest: Digest, found: Option<Data>, size: nat, original: Data, order: seq<nat>)
    requires SentOrSkipped(digest, found, size, original, order)
    ensures forall i | 0 <= i < ChunkCount(|original|) ::
              i in order || (found.Some? && Block(found.value, i) == Block(original, i))
  {
    forall i | 0 <= i < ChunkCount(|original|) && i !in order
      ensures found.Some? && Block(found.value, i) == Block(original, i)
    {
      assert digest(Block(found.value, i)) == digest(Block(original, i));
    }
  }

  /** Resuming is safe: skipping the chunks reported as matching leaves the same as sending them. */
  lemma ResumeMatches(digest: Digest, f: StoredFile, size: nat, original: Data, order: seq<nat>)
    requires Marked(f) && InRange(order, original)
    requires SentOrSkipped(digest, f.content, size, original, order)
    ensures var g := WrittenInOrder(f, original, order);
            && UploadedOver(g, f, original) && Marked(g)
            && (Finalizable(f, original) ==> Matches(digest, g, FinalChecksum(digest, original)))
  {
    SkippedIsThere(digest, f.content, size, original, order);
    HonestUploadMatches(digest, f, original, order);
  }
}
