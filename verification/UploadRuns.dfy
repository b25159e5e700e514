/**
 Whole runs of the upload service: requests for any recordings, in any order, accepted or not. What a
 recording ends up with, and what its status says about its files.
 */
module UploadRuns {
  import opened Bytes
  import opened ChunkedUpload
  import opened UploadService

  function Run(digest: Digest, t: Table, requests: seq<Request>): Table {
    if requests == [] then t else
    Served(digest, Run(digest, t, requests[..|requests| - 1]), requests[|requests| - 1])
  }

  lemma OneMoreRequest(digest: Digest, t: Table, requests: seq<Request>, request: Request)
    ensures Run(digest, t, requests + [request]) == Served(digest, Run(digest, t, requests), request)
  {
    assert (requests + [request])[..|requests|] == requests;
  }

  lemma {:induction false} RunConcat(digest: Digest, t: Table, a: seq<Request>, b: seq<Request>)
    ensures Run(digest, t, a + b) == Run(digest, Run(digest, t, a), b)
  {
    if b == [] {
      assert a + b == a;
    } else {
      var prev, last := b[..|b| - 1], b[|b| - 1];
      RunConcat(digest, t, a, prev);
      OneMoreRequest(digest, t, a + prev, last);
      assert a + b == (a + prev) + [last];
    }
  }

  // ---------------------------------------------------------------------------------------
  // Honest uploads complete
  // ---------------------------------------------------------------------------------------

  /** An accepted chunk for recording `id`. */
  predicate ChunkFor(digest: Digest, request: Request, id: string) {
    request.Chunk? && request.id == id && Sound(digest, request)
  }

  /** Accepted chunks for `id` are the client's own; what is sent for other recordings, or rejected, may be anything. */
  predicate Honest(digest: Digest, request: Request, id: string, video: Data, sensor: Data) {
    ChunkFor(digest, request, id) ==>
      var original := if request.fileType == "video" then video else sensor;
      request.index < ChunkCount(|original|) && request.body == Block(original, request.index)
  }

  /** Which chunks of a file the requests brought, in order. */
  function Order(digest: Digest, requests: seq<Request>, id: string, fileType: string): seq<nat> {
    if requests == [] then [] else
    var last := requests[|requests| - 1];
    Order(digest, requests[..|requests| - 1], id, fileType)
    + if ChunkFor(digest, last, id) && last.fileType == fileType then [last.index] else []
  }

  /** A file as the honest chunks leave it. */
  ghost predicate Follows(f: StoredFile, start: StoredFile, original: Data, order: seq<nat>) {
    f.size == start.size && InRange(order, original) && f.Bytes() == Uploaded(start.Bytes(), original, order)
  }

  lemma ChunkFollows(f: StoredFile, start: StoredFile, original: Data, order: seq<nat>, i: nat)
    requires Follows(f, start, original, order) && i < ChunkCount(|original|)
    ensures Follows(Written(f, i, Block(original, i)), start, original, order + [i])
    ensures Marked(f) ==> Marked(Written(f, i, Block(original, i)))
  {
    BlockExtent(original, i);
    WrittenBytes(f.Bytes(), i * CHUNK_SIZE, Block(original, i));
    assert (order + [i])[..|order|] == order;
  }

  ghost predicate BothFollow(digest: Digest, rec: Recording, start: Recording, video: Data, sensor: Data,
                             requests: seq<Request>, id: string) {
    && Follows(rec.video, start.video, video, Order(digest, requests, id, "video"))
    && Follows(rec.sensor, start.sensor, sensor, Order(digest, requests, id, "sensor"))
  }

  lemma OneMoreOrder(digest: Digest, requests: seq<Request>, request: Request, id: string, fileType: string)
    ensures Order(digest, requests + [request], id, fileType)
         == Order(digest, requests, id, fileType)
            + if ChunkFor(digest, request, id) && request.fileType == fileType then [request.index] else []
  {
    assert (requests + [request])[..|requests|] == requests;
  }

  /** A prepare of the recording for another session than its own, which finds no files and sets the marks to zero. */
  predicate Elsewhere(request: Request, id: string, session: string) {
    request.Prepare? && request.known && request.id == id && request.session != session
  }

  /** Whatever is not an accepted chunk for the recording leaves its files as they are, and marked unless prepared elsewhere. */
  lemma OtherRequestKeepsFiles(digest: Digest, t: Table, request: Request, id: string)
    requires id in t && !ChunkFor(digest, request, id)
    ensures id in Served(digest, t, request)
    ensures var rec := Served(digest, t, request)[id];
            && rec.session == t[id].session
            && KeptFile(rec.video, t[id].video, Elsewhere(request, id, t[id].session))
            && KeptFile(rec.sensor, t[id].sensor, Elsewhere(request, id, t[id].session))
  {
  }

  ghost predicate KeptFile(f: StoredFile, before: StoredFile, elsewhere: bool) {
    f.size == before.size && f.Bytes() == before.Bytes() && (Marked(before) && !elsewhere ==> Marked(f))
  }

  function File(rec: Recording, fileType: string): StoredFile {
    if fileType == "video" then rec.video else rec.sensor
  }

  lemma ChunkStored(digest: Digest, t: Table, request: Request, id: string, fileType: string)
    requires id in t && ChunkFor(digest, request, id) && fileType in {"video", "sensor"}
    ensures id in Served(digest, t, request) && Served(digest, t, request)[id].session == t[id].session
    ensures File(Served(digest, t, request)[id], fileType)
         == if request.fileType == fileType then Written(File(t[id], fileType), request.index, request.body)
            else File(t[id], fileType)
  {
  }

  lemma FileFollows(digest: Digest, t: Table, start: StoredFile, original: Data,
                    requests: seq<Request>, request: Request, id: string, fileType: string)
    requires id in t && fileType in {"video", "sensor"}
    requires Follows(File(t[id], fileType), start, original, Order(digest, requests, id, fileType))
    requires ChunkFor(digest, request, id) && request.fileType == fileType ==>
               request.index < ChunkCount(|original|) && request.body == Block(original, request.index)
    ensures id in Served(digest, t, request) && Served(digest, t, request)[id].session == t[id].session
    ensures Marked(File(t[id], fileType)) && !Elsewhere(request, id, t[id].session) ==>
              Marked(File(Served(digest, t, request)[id], fileType))
    ensures Follows(File(Served(digest, t, request)[id], fileType), start, original,
                    Order(digest, requests + [request], id, fileType))
  {
    var f, order := File(t[id], fileType), Order(digest, requests, id, fileType);
    OneMoreOrder(digest, requests, request, id, fileType);
    if !ChunkFor(digest, request, id) {
      OtherRequestKeepsFiles(digest, t, request, id);
      assert order + [] == order;
    } else {
      ChunkStored(digest, t, request, id, fileType);
      if request.fileType == fileType {
        ChunkFollows(f, start, original, order, request.index);
      } else {
        assert order + [] == order;
      }
    }
  }

  /** From `start` on, the requests have left both files as the honest chunks make them. */
  ghost predicate RunState(digest: Digest, t: Table, start: Recording, video: Data, sensor: Data,
                           requests: seq<Request>, id: string) {
    && id in t && t[id].session == start.session
    && BothFollow(digest, t[id], start, video, sensor, requests, id)
    && ((forall i | 0 <= i < |requests| :: !Elsewhere(requests[i], id, start.session)) ==>
          && (Marked(start.video) ==> Marked(t[id].video))
          && (Marked(start.sensor) ==> Marked(t[id].sensor)))
  }

  lemma RequestFollows(digest: Digest, t: Table, start: Recording, video: Data, sensor: Data,
                       requests: seq<Request>, request: Request, id: string)
    requires RunState(digest, t, start, video, sensor, requests, id)
    requires Honest(digest, request, id, video, sensor)
    ensures RunState(digest, Served(digest, t, request), start, video, sensor, requests + [request], id)
  {
    FileFollows(digest, t, start.video, video, requests, request, id, "video");
    FileFollows(digest, t, start.sensor, sensor, requests, request, id, "sensor");
    var all := requests + [request];
    if forall i | 0 <= i < |all| :: !Elsewhere(all[i], id, start.session) {
      assert all[|requests|] == request;
      assert forall i | 0 <= i < |requests| :: requests[i] == all[i];
    }
  }

  lemma {:induction false} RunFollows(digest: Digest, t: Table, video: Data, sensor: Data, requests: seq<Request>, id: string)
    requires id in t
    requires forall i | 0 <= i < |requests| :: Honest(digest, requests[i], id, video, sensor)
    ensures RunState(digest, Run(digest, t, requests), t[id], video, sensor, requests, id)
  {
    if requests != [] {
      var prev, last := requests[..|requests| - 1], requests[|requests| - 1];
      RunFollows(digest, t, video, sensor, prev, id);
      RequestFollows(digest, Run(digest, t, prev), t[id], video, sensor, prev, last, id);
      assert requests == prev + [last];
    }
  }

  /** Each chunk of the original arrives, or is there already. */
  ghost predicate Covered(digest: Digest, f: StoredFile, original: Data, requests: seq<Request>, id: string, fileType: string) {
    forall i | 0 <= i < ChunkCount(|original|) ::
      i in Order(digest, requests, id, fileType) || Block(f.Bytes(), i) == Block(original, i)
  }

  function FinalizeWith(digest: Digest, id: string, video: Data, sensor: Data): Request {
    Finalize(id, FinalChecksum(digest, video), FinalChecksum(digest, sensor))
  }

  predicate IsComplete(t: Table, id: string) {
    id in t && t[id].status == Complete
  }

  /**
   What a finalized honest upload over the files of `start` comes to: both files hold the originals,
   followed only by what they had beyond them, and the recording is complete exactly if both were
   finalizable; that it is complete then takes no assumption on the digest.
   */
  ghost predicate Outcome(digest: Digest, done: Table, start: Recording, id: string, video: Data, sensor: Data) {
    && id in done && done[id].session == start.session
    && UploadedOver(done[id].video, start.video, video) && UploadedOver(done[id].sensor, start.sensor, sensor)
    && (Finalizable(start.video, video) && Finalizable(start.sensor, sensor) ==> IsComplete(done, id))
    && (NoCollision(digest, done[id].video, video) && NoCollision(digest, done[id].sensor, sensor) ==>
          (IsComplete(done, id) <==> Finalizable(start.video, video) && Finalizable(start.sensor, sensor)))
  }

  lemma FinalizeSettles(digest: Digest, t: Table, start: Recording, id: string, video: Data, sensor: Data)
    requires id in t && t[id].session == start.session
    requires UploadedOver(t[id].video, start.video, video) && UploadedOver(t[id].sensor, start.sensor, sensor)
    ensures var done := Served(digest, t, FinalizeWith(digest, id, video, sensor));
            && Outcome(digest, done, start, id, video, sensor)
            && done[id].video == t[id].video && done[id].sensor == t[id].sensor
  {
    UploadedMatchesExactly(digest, t[id].video, start.video, video);
    UploadedMatchesExactly(digest, t[id].sensor, start.sensor, sensor);
  }

  /**
   Any interleaving of requests, in which the accepted chunks for `id` are honest and every chunk of
   both files arrives or was there already, over any earlier files and whatever sizes were announced:
   finalizing with the originals' checksums has the outcome above, and the marks are the lengths if
   they were and the recording was not prepared for another session.
   */
  lemma HonestRunCompletes(digest: Digest, t: Table, requests: seq<Request>, id: string, video: Data, sensor: Data)
    requires id in t
    requires forall i | 0 <= i < |requests| :: Honest(digest, requests[i], id, video, sensor)
    requires Covered(digest, t[id].video, video, requests, id, "video")
    requires Covered(digest, t[id].sensor, sensor, requests, id, "sensor")
    ensures var done := Run(digest, t, requests + [FinalizeWith(digest, id, video, sensor)]);
            && Outcome(digest, done, t[id], id, video, sensor)
            && (&& Marked(t[id].video) && Marked(t[id].sensor)
                && (forall i | 0 <= i < |requests| :: !Elsewhere(requests[i], id, t[id].session))
                ==> Marked(done[id].video) && Marked(done[id].sensor))
  {
    RunFollows(digest, t, video, sensor, requests, id);
    ResumedUploadCompletes(t[id].video.Bytes(), video, Order(digest, requests, id, "video"));
    ResumedUploadCompletes(t[id].sensor.Bytes(), sensor, Order(digest, requests, id, "sensor"));
    FinalizeSettles(digest, Run(digest, t, requests), t[id], id, video, sensor);
    OneMoreRequest(digest, t, requests, FinalizeWith(digest, id, video, sensor));
  }

  /** The prepare that made the row, if any: it decides the session and both sizes. */
  function FirstPrepare(requests: seq<Request>, id: string): Option<Request> {
    if requests == [] then None else
    var earlier, last := FirstPrepare(requests[..|requests| - 1], id), requests[|requests| - 1];
    if earlier.Some? then earlier
    else if last.Prepare? && last.known && last.id == id then Some(last) else None
  }

  predicate MadeBy(rec: Recording, request: Request) {
    && request.Prepare? && rec.session == request.session
    && rec.video.size == request.videoSize && rec.sensor.size == request.sensorSize
  }

  /** In every run from an empty service, a recording is there exactly if it was prepared, with what was announced first. */
  lemma {:induction false} SizesAnnouncedFirst(digest: Digest, requests: seq<Request>, id: string)
    ensures id in Run(digest, map[], requests) <==> FirstPrepare(requests, id).Some?
    ensures id in Run(digest, map[], requests) ==> MadeBy(Run(digest, map[], requests)[id], FirstPrepare(requests, id).value)
  {
    if requests != [] {
      SizesAnnouncedFirst(digest, requests[..|requests| - 1], id);
    }
  }

  /**
   From an empty service, whatever came before the client prepares, other prepares of the recording
   included: if each chunk of both files arrives afterwards, finalizing has the outcome above over the
   row as prepared, whose sizes are those announced first.
   */
  lemma FirstUploadCompletes(digest: Digest, before: seq<Request>, prepare: Request, requests: seq<Request>,
                             id: string, video: Data, sensor: Data)
    requires prepare.Prepare? && prepare.known && prepare.id == id
    requires forall i | 0 <= i < |requests| :: Honest(digest, requests[i], id, video, sensor)
    requires forall i | 0 <= i < ChunkCount(|video|) :: i in Order(digest, requests, id, "video")
    requires forall i | 0 <= i < ChunkCount(|sensor|) :: i in Order(digest, requests, id, "sensor")
    ensures var prepared := Run(digest, map[], before + [prepare]);
            var done := Run(digest, map[], before + [prepare] + (requests + [FinalizeWith(digest, id, video, sensor)]));
            && id in prepared && FirstPrepare(before + [prepare], id).Some?
            && MadeBy(prepared[id], FirstPrepare(before + [prepare], id).value)
            && Outcome(digest, done, prepared[id], id, video, sensor)
  {
    OneMoreRequest(digest, map[], before, prepare);
    SizesAnnouncedFirst(digest, before + [prepare], id);
    RunConcat(digest, map[], before + [prepare], requests + [FinalizeWith(digest, id, video, sensor)]);
    HonestRunCompletes(digest, Run(digest, map[], before + [prepare]), requests, id, video, sensor);
  }

  /**
   A recording prepared for the first time, with the true sizes: once each chunk has arrived, both
   files are the originals, their marks are their lengths, and the recording is complete.
   */
  lemma NewUploadCompletes(digest: Digest, t: Table, session: string, requests: seq<Request>,
                           id: string, video: Data, sensor: Data)
    requires id !in t
    requires forall i | 0 <= i < |requests| :: Honest(digest, requests[i], id, video, sensor)
    requires forall i | 0 <= i < |requests| :: !Elsewhere(requests[i], id, session)
    requires forall i | 0 <= i < ChunkCount(|video|) :: i in Order(digest, requests, id, "video")
    requires forall i | 0 <= i < ChunkCount(|sensor|) :: i in Order(digest, requests, id, "sensor")
    ensures var prepare := Prepare(session, true, id, |video|, |sensor|);
            var done := Run(digest, t, [prepare] + (requests + [FinalizeWith(digest, id, video, sensor)]));
            && IsComplete(done, id)
            && done[id].video.Bytes() == video && done[id].video.uploadedBytes == |video|
            && done[id].sensor.Bytes() == sensor && done[id].sensor.uploadedBytes == |sensor|
  {
    var prepare := Prepare(session, true, id, |video|, |sensor|);
    PrepareFirst(digest, t, prepare, requests + [FinalizeWith(digest, id, video, sensor)]);
    var prepared := Served(digest, t, prepare);
    assert prepared[id] == NewRecording(session, |video|, |sensor|);
    HonestRunCompletes(digest, prepared, requests, id, video, sensor);
    ExtentCovers(|video|, 0);
    ExtentCovers(|sensor|, 0);
    NothingBeyond(prepared[id].video, video);
    NothingBeyond(prepared[id].sensor, sensor);
  }

  lemma NothingBeyond(f: StoredFile, original: Data)
    requires |f.Bytes()| <= |original|
    ensures original + From(f.Bytes(), |original|) == original
  {
  }

  lemma PrepareFirst(digest: Digest, t: Table, prepare: Request, requests: seq<Request>)
    ensures Run(digest, t, [prepare] + requests) == Run(digest, Served(digest, t, prepare), requests)
  {
    OneMoreRequest(digest, t, [], prepare);
    assert [] + [prepare] == [prepare];
    RunConcat(digest, t, [prepare], requests);
  }

  /**
   Resuming: from any state of the service, for any session and any announced sizes, a client that
   prepares and sends the chunks not reported with the digest of its own has the same outcome as one
   that sends them all, unless two chunks collide.
   */
  lemma ResumedUploadFinishes(digest: Digest, t: Table, prepare: Request, requests: seq<Request>,
                              id: string, video: Data, sensor: Data)
    requires prepare.Prepare? && prepare.known && prepare.id == id
    requires forall i | 0 <= i < |requests| :: Honest(digest, requests[i], id, video, sensor)
    requires var row := RowFor(t, id, prepare.session, prepare.videoSize, prepare.sensorSize);
             && SentOrSkipped(digest, Found(row, prepare.session, row.video), prepare.videoSize, video,
                              Order(digest, requests, id, "video"))
             && SentOrSkipped(digest, Found(row, prepare.session, row.sensor), prepare.sensorSize, sensor,
                              Order(digest, requests, id, "sensor"))
    ensures var row := RowFor(t, id, prepare.session, prepare.videoSize, prepare.sensorSize);
            var done := Run(digest, t, [prepare] + (requests + [FinalizeWith(digest, id, video, sensor)]));
            Outcome(digest, done, row, id, video, sensor)
  {
    var row := RowFor(t, id, prepare.session, prepare.videoSize, prepare.sensorSize);
    var prepared := Served(digest, t, prepare);
    PrepareFirst(digest, t, prepare, requests + [FinalizeWith(digest, id, video, sensor)]);
    SkippedIsThere(digest, Found(row, prepare.session, row.video), prepare.videoSize, video,
                   Order(digest, requests, id, "video"));
    SkippedIsThere(digest, Found(row, prepare.session, row.sensor), prepare.sensorSize, sensor,
                   Order(digest, requests, id, "sensor"));
    HonestRunCompletes(digest, prepared, requests, id, video, sensor);
    SameFilesSameOutcome(digest, Run(digest, prepared, requests + [FinalizeWith(digest, id, video, sensor)]),
                         prepared[id], row, id, video, sensor);
  }

  /** The outcome depends on the marks of the row in no way. */
  lemma SameFilesSameOutcome(digest: Digest, done: Table, a: Recording, b: Recording, id: string, video: Data, sensor: Data)
    requires Outcome(digest, done, a, id, video, sensor) && a.session == b.session
    requires a.video.size == b.video.size && a.video.Bytes() == b.video.Bytes()
    requires a.sensor.size == b.sensor.size && a.sensor.Bytes() == b.sensor.Bytes()
    ensures Outcome(digest, done, b, id, video, sensor)
  {
  }

  // ---------------------------------------------------------------------------------------
  // Honest clients that do not complete
  // ---------------------------------------------------------------------------------------

  const SAMPLE_ID := "r"

  function SampleChunk(digest: Digest, byte: u8): Request {
    Chunk(SAMPLE_ID, "video", 0, digest([byte]), [byte])
  }

  lemma SampleHonest(digest: Digest)
    ensures Honest(digest, SampleChunk(digest, 1), SAMPLE_ID, [1], [])
    ensures Order(digest, [SampleChunk(digest, 1)], SAMPLE_ID, "video") == [0]
  {
    assert Block([1], 0) == [1];
    OneMoreOrder(digest, [], SampleChunk(digest, 1), SAMPLE_ID, "video");
    assert [] + [SampleChunk(digest, 1)] == [SampleChunk(digest, 1)];
  }

  /**
   The size announced first stays: prepared with size 0 and then with the true size 1, the one byte
   uploaded, and finalized, the recording fails, for every digest that tells the two hashes apart.
   */
  lemma SmallerSizeFirstFails(digest: Digest)
    ensures var requests := [Prepare("s", true, SAMPLE_ID, 0, 0), Prepare("s", true, SAMPLE_ID, 1, 0),
                             SampleChunk(digest, 1), FinalizeWith(digest, SAMPLE_ID, [1], [])];
            var done := Run(digest, map[], requests);
            && SAMPLE_ID in done && done[SAMPLE_ID].video.Bytes() == [1] && Marked(done[SAMPLE_ID].video)
            && (done[SAMPLE_ID].status == Failed <==> digest([]) != digest(digest([1])))
  {
    var first, second := Prepare("s", true, SAMPLE_ID, 0, 0), Prepare("s", true, SAMPLE_ID, 1, 0);
    var chunk, finalize := SampleChunk(digest, 1), FinalizeWith(digest, SAMPLE_ID, [1], []);
    RunFour(digest, first, second, chunk, finalize);
    var prepared := Served(digest, Served(digest, map[], first), second);
    assert prepared[SAMPLE_ID] == NewRecording("s", 0, 0);
    var written := Served(digest, prepared, chunk);
    FirstByte(0);
    assert written[SAMPLE_ID].video == StoredFile(0, Some([1]), 1);
    SampleDigests(digest);
    assert Matches(digest, written[SAMPLE_ID].sensor, FinalChecksum(digest, []));
  }

  lemma FirstByte(size: nat)
    ensures Written(StoredFile(size, None, 0), 0, [1]) == StoredFile(size, Some([1]), 1)
  {
    WrittenBytes([], 0, [1]);
    assert WriteAt([], 0, [1]) == [1];
  }

  lemma RunThree(digest: Digest, a: Request, b: Request, c: Request)
    ensures Run(digest, map[], [a, b, c]) == Served(digest, Served(digest, Served(digest, map[], a), b), c)
  {
    OneMoreRequest(digest, map[], [a, b], c);
    OneMoreRequest(digest, map[], [a], b);
    OneMoreRequest(digest, map[], [], a);
    assert [a, b] + [c] == [a, b, c] && [a] + [b] == [a, b] && [] + [a] == [a];
  }

  lemma RunFour(digest: Digest, a: Request, b: Request, c: Request, d: Request)
    ensures Run(digest, map[], [a, b, c, d])
         == Served(digest, Served(digest, Served(digest, Served(digest, map[], a), b), c), d)
  {
    RunThree(digest, a, b, c);
    OneMoreRequest(digest, map[], [a, b, c], d);
    assert [a, b, c] + [d] == [a, b, c, d];
  }

  lemma SampleDigests(digest: Digest)
    ensures FinalChecksum(digest, [1]) == digest(digest([1])) && FinalChecksum(digest, []) == digest([])
    ensures Matches(digest, StoredFile(0, Some([1]), 1), FinalChecksum(digest, [1])) <==> digest([]) == digest(digest([1]))
  {
    var s: Data := [1];
    SampleChunks();
    assert Digests(digest, [s]) == [digest(s)];
    assert Concat([digest(s)]) == digest(s) by {
      assert [digest(s)][1..] == [] && digest(s) + [] == digest(s);
    }
    assert Digests(digest, []) == [];
  }

  lemma SampleChunks()
    ensures Chunks([1], ChunkCount(1)) == [[1]] && Chunks([1], ChunkCount(0)) == [] && Chunks([], ChunkCount(0)) == []
  {
    var s: Data := [1];
    assert ChunkCount(1) == 1 && ChunkCount(0) == 0;
    assert Upto(s, CHUNK_SIZE) == s && Chunks(From(s, CHUNK_SIZE), 0) == [];
  }

  /** Preparing for another session leaves the content alone and loses the mark. */
  lemma OtherSessionLosesTheMark(digest: Digest)
    ensures var requests := [Prepare("s", true, SAMPLE_ID, 1, 0), SampleChunk(digest, 1), Prepare("t", true, SAMPLE_ID, 1, 0)];
            var done := Run(digest, map[], requests);
            SAMPLE_ID in done && done[SAMPLE_ID].video.Bytes() == [1] && done[SAMPLE_ID].video.uploadedBytes == 0
  {
    var a, b, c := Prepare("s", true, SAMPLE_ID, 1, 0), SampleChunk(digest, 1), Prepare("t", true, SAMPLE_ID, 1, 0);
    RunThree(digest, a, b, c);
    var prepared := Served(digest, map[], a);
    assert prepared[SAMPLE_ID] == NewRecording("s", 1, 0);
    FirstByte(1);
    assert Served(digest, prepared, b)[SAMPLE_ID].video == StoredFile(1, Some([1]), 1);
  }

  // ---------------------------------------------------------------------------------------
  // What a complete recording is
  // ---------------------------------------------------------------------------------------

  /** Request `k` finalized the recording with checksums both files matched at that time. */
  ghost predicate CompletedBy(digest: Digest, requests: seq<Request>, id: string, k: nat) {
    && k < |requests| && requests[k].Finalize? && requests[k].id == id
    && var t := Run(digest, map[], requests[..k]);
    id in t && BothMatch(digest, t[id], requests[k].videoFinal, requests[k].sensorFinal)
  }

  ghost predicate LastFinalize(requests: seq<Request>, id: string, k: nat) {
    forall j | k < j < |requests| && requests[j].Finalize? :: requests[j].id != id
  }

  lemma CompletedByPrefix(digest: Digest, requests: seq<Request>, request: Request, id: string, k: nat)
    requires k < |requests|
    ensures CompletedBy(digest, requests + [request], id, k) <==> CompletedBy(digest, requests, id, k)
  {
    assert (requests + [request])[..k] == requests[..k];
  }

  /** Only finalizing the recording itself changes whether it is complete. */
  lemma StatusKept(digest: Digest, t: Table, request: Request, id: string)
    requires !(request.Finalize? && request.id == id)
    ensures IsComplete(Served(digest, t, request), id) <==> IsComplete(t, id)
  {
  }

  /**
   In every run from an empty service, a recording is complete exactly when its last finalize found
   both files matching the checksums it announced.
   */
  lemma {:induction false} CompleteExactly(digest: Digest, requests: seq<Request>, id: string)
    ensures IsComplete(Run(digest, map[], requests), id)
       <==> exists k: nat :: CompletedBy(digest, requests, id, k) && LastFinalize(requests, id, k)
  {
    if requests != [] {
      var prev, last := requests[..|requests| - 1], requests[|requests| - 1];
      assert requests == prev + [last];
      if last.Finalize? && last.id == id {
        assert LastFinalize(requests, id, |prev|);
        forall k: nat | CompletedBy(digest, requests, id, k) && LastFinalize(requests, id, k) ensures k == |prev| {
          assert requests[|prev|] == last;
        }
      } else {
        StatusKept(digest, Run(digest, map[], prev), last, id);
        CompleteExactly(digest, prev, id);
        LaterRequest(digest, prev, last, id);
      }
    }
  }

  lemma LaterRequest(digest: Digest, requests: seq<Request>, request: Request, id: string)
    requires !(request.Finalize? && request.id == id)
    ensures (exists k: nat :: CompletedBy(digest, requests, id, k) && LastFinalize(requests, id, k))
       <==> exists k: nat :: CompletedBy(digest, requests + [request], id, k) && LastFinalize(requests + [request], id, k)
  {
    var all := requests + [request];
    if k: nat :| CompletedBy(digest, requests, id, k) && LastFinalize(requests, id, k) {
      CompletedByPrefix(digest, requests, request, id, k);
      assert CompletedBy(digest, all, id, k) && LastFinalize(all, id, k);
    }
    if k: nat :| CompletedBy(digest, all, id, k) && LastFinalize(all, id, k) {
      assert k < |requests|;
      CompletedByPrefix(digest, requests, request, id, k);
      assert forall j | k < j < |requests| :: requests[j] == all[j];
      assert CompletedBy(digest, requests, id, k) && LastFinalize(requests, id, k);
    }
  }

  /** Finalizing with the originals' checksums completes exactly when both files agree with them. */
  lemma FinalizeCompletesExactly(digest: Digest, t: Table, id: string, video: Data, sensor: Data)
    requires id in t && NoCollision(digest, t[id].video, video) && NoCollision(digest, t[id].sensor, sensor)
    ensures IsComplete(Served(digest, t, FinalizeWith(digest, id, video, sensor)), id)
       <==> Agrees(t[id].video, video) && Agrees(t[id].sensor, sensor)
  {
    MatchMeansSameContent(digest, t[id].video, video);
    MatchMeansSameContent(digest, t[id].sensor, sensor);
  }

  /** The accepted chunks for a file, honest or not, in order. */
  function Writes(digest: Digest, requests: seq<Request>, id: string, fileType: string): seq<ChunkWrite> {
    if requests == [] then [] else
    var last := requests[|requests| - 1];
    Writes(digest, requests[..|requests| - 1], id, fileType)
    + if ChunkFor(digest, last, id) && last.fileType == fileType then [ChunkWrite(last.index, last.body)] else []
  }

  lemma OneMoreOfWrites(f: StoredFile, writes: seq<ChunkWrite>, w: ChunkWrite)
    ensures AfterWrites(f, writes + [w]) == Written(AfterWrites(f, writes), w.index, w.body)
  {
    assert (writes + [w])[..|writes|] == writes;
  }

  /** A file's content after any run is what the accepted chunks for it make of it. */
  lemma {:induction false} WritesMakeContent(digest: Digest, t: Table, requests: seq<Request>, id: string, fileType: string)
    requires id in t && fileType in {"video", "sensor"}
    ensures id in Run(digest, t, requests)
    ensures var f, after := File(t[id], fileType), File(Run(digest, t, requests)[id], fileType);
            after.size == f.size && after.Bytes() == AfterWrites(f, Writes(digest, requests, id, fileType)).Bytes()
  {
    if requests != [] {
      var prev, last := requests[..|requests| - 1], requests[|requests| - 1];
      WritesMakeContent(digest, t, prev, id, fileType);
      ContentStep(digest, Run(digest, t, prev), last, id, fileType, File(t[id], fileType), Writes(digest, prev, id, fileType));
    }
  }

  lemma ContentStep(digest: Digest, t: Table, request: Request, id: string, fileType: string,
                    f: StoredFile, writes: seq<ChunkWrite>)
    requires id in t && fileType in {"video", "sensor"}
    requires File(t[id], fileType).size == f.size && File(t[id], fileType).Bytes() == AfterWrites(f, writes).Bytes()
    ensures id in Served(digest, t, request)
    ensures var more := if ChunkFor(digest, request, id) && request.fileType == fileType
                        then [ChunkWrite(request.index, request.body)] else [];
            var after := File(Served(digest, t, request)[id], fileType);
            after.size == f.size && after.Bytes() == AfterWrites(f, writes + more).Bytes()
  {
    assert writes + [] == writes;
    if ChunkFor(digest, request, id) {
      ChunkStored(digest, t, request, id, fileType);
      if request.fileType == fileType {
        OneMoreOfWrites(f, writes, ChunkWrite(request.index, request.body));
      }
    } else {
      OtherRequestKeepsFiles(digest, t, request, id);
    }
  }

  /**
   What late chunks may do to a file that agrees with the original: reach beyond it only if it fills
   the recorded chunks, and leave each byte of it, by the last write that touches it, as it is.
   */
  predicate Preserve(writes: seq<ChunkWrite>, original: Data, extent: nat) {
    && (|original| == extent
        || forall i | 0 <= i < |writes| && writes[i].body != [] :: writes[i].Offset() + |writes[i].body| <= |original|)
    && forall k | 0 <= k < |original| :: LastByte(writes, k).Some? ==> LastByte(writes, k).value == original[k]
  }

  lemma {:induction false} ReachWithin(len: nat, writes: seq<ChunkWrite>, bound: nat)
    ensures Reach(len, writes) >= len
    ensures Reach(len, writes) <= bound
       <==> len <= bound && forall i | 0 <= i < |writes| && writes[i].body != [] :: writes[i].Offset() + |writes[i].body| <= bound
  {
    if writes != [] {
      var prev, last := writes[..|writes| - 1], writes[|writes| - 1];
      ReachWithin(len, prev, bound);
      assert forall i | 0 <= i < |prev| :: writes[i] == prev[i];
      assert writes[|prev|] == last;
    }
  }

  function Least(a: nat, b: nat): nat {
    if a <= b then a else b
  }

  /** The content after the writes, up to the extent, is the original exactly by its length and each byte. */
  lemma AgreesByteByByte(f: StoredFile, original: Data, writes: seq<ChunkWrite>)
    ensures Agrees(AfterWrites(f, writes), original)
       <==> && |original| == Least(Reach(|f.Bytes()|, writes), Extent(f.size))
            && forall k | 0 <= k < |original| :: ByteAfter(f.Bytes(), writes, k) == original[k]
  {
    var g, reach, extent := AfterWrites(f, writes), Reach(|f.Bytes()|, writes), Extent(f.size);
    LengthIsReach(f, writes);
    SizeKept(f, writes);
    forall k | 0 <= k < reach ensures g.Bytes()[k] == ByteAfter(f.Bytes(), writes, k) {
      ContentAfterWrites(f, writes, k);
    }
    UptoByteByByte(g.Bytes(), extent, original);
  }

  lemma UptoByteByByte(s: Data, n: nat, original: Data)
    ensures Upto(s, n) == original
       <==> |original| == Least(|s|, n) && forall k | 0 <= k < |original| :: s[k] == original[k]
  {
  }

  lemma {:induction false} SizeKept(f: StoredFile, writes: seq<ChunkWrite>)
    ensures AfterWrites(f, writes).size == f.size
  {
    if writes != [] {
      SizeKept(f, writes[..|writes| - 1]);
    }
  }

  /**
   The status is not looked at when a chunk comes: any run of late chunks keeps a file's agreement
   with the original exactly when they preserve it. A harmful chunk may be made good by a later one.
   */
  lemma LateChunksKeepAgreementExactly(f: StoredFile, original: Data, writes: seq<ChunkWrite>)
    requires Agrees(f, original)
    ensures Agrees(AfterWrites(f, writes), original) <==> Preserve(writes, original, Extent(f.size))
  {
    AgreesByteByByte(f, original, writes);
    UptoByteByByte(f.Bytes(), Extent(f.size), original);
    ReachWithin(|f.Bytes()|, writes, |original|);
  }

  /**
   Safety over every run from an empty service, whatever sizes were announced: if a recording is
   complete and its last finalize announced the originals' checksums, then both files agreed with the
   originals at that time, and still do exactly if the chunks accepted since preserve them.
   */
  lemma CompleteMeansUploaded(digest: Digest, requests: seq<Request>, id: string, k: nat, video: Data, sensor: Data)
    requires IsComplete(Run(digest, map[], requests), id)
    requires k < |requests| && LastFinalize(requests, id, k)
    requires requests[k] == FinalizeWith(digest, id, video, sensor)
    requires var t := Run(digest, map[], requests[..k]);
             id in t ==> NoCollision(digest, t[id].video, video) && NoCollision(digest, t[id].sensor, sensor)
    ensures var t, done := Run(digest, map[], requests[..k]), Run(digest, map[], requests);
            && id in t && Agrees(t[id].video, video) && Agrees(t[id].sensor, sensor)
            && (Agrees(done[id].video, video)
                <==> Preserve(Writes(digest, requests[k + 1..], id, "video"), video, Extent(done[id].video.size)))
            && (Agrees(done[id].sensor, sensor)
                <==> Preserve(Writes(digest, requests[k + 1..], id, "sensor"), sensor, Extent(done[id].sensor.size)))
  {
    var t := Run(digest, map[], requests[..k]);
    LastFinalizeCompleted(digest, requests, id, k);
    FinalizeCompletesExactly(digest, t, id, video, sensor);
    AfterRequest(digest, requests, k);
    SplitRun(digest, requests, k + 1);
    var finalized := Run(digest, map[], requests[..k + 1]);
    StillAgrees(digest, finalized, requests[k + 1..], id, "video", video);
    StillAgrees(digest, finalized, requests[k + 1..], id, "sensor", sensor);
  }

  lemma StillAgrees(digest: Digest, t: Table, requests: seq<Request>, id: string, fileType: string, original: Data)
    requires id in t && fileType in {"video", "sensor"} && Agrees(File(t[id], fileType), original)
    ensures id in Run(digest, t, requests)
    ensures var after := File(Run(digest, t, requests)[id], fileType);
            Agrees(after, original) <==> Preserve(Writes(digest, requests, id, fileType), original, Extent(after.size))
  {
    var f, writes := File(t[id], fileType), Writes(digest, requests, id, fileType);
    WritesMakeContent(digest, t, requests, id, fileType);
    SizeKept(f, writes);
    LateChunksKeepAgreementExactly(f, original, writes);
  }

  lemma LastFinalizeCompleted(digest: Digest, requests: seq<Request>, id: string, k: nat)
    requires IsComplete(Run(digest, map[], requests), id)
    requires k < |requests| && requests[k].Finalize? && requests[k].id == id && LastFinalize(requests, id, k)
    ensures CompletedBy(digest, requests, id, k)
  {
    CompleteExactly(digest, requests, id);
    var m: nat :| CompletedBy(digest, requests, id, m) && LastFinalize(requests, id, m);
    assert m == k;
  }

  lemma AfterRequest(digest: Digest, requests: seq<Request>, k: nat)
    requires k < |requests|
    ensures Run(digest, map[], requests[..k + 1]) == Served(digest, Run(digest, map[], requests[..k]), requests[k])
  {
    OneMoreRequest(digest, map[], requests[..k], requests[k]);
    assert requests[..k] + [requests[k]] == requests[..k + 1];
  }

  lemma SplitRun(digest: Digest, requests: seq<Request>, n: nat)
    requires n <= |requests|
    ensures Run(digest, map[], requests) == Run(digest, Run(digest, map[], requests[..n]), requests[n..])
  {
    RunConcat(digest, map[], requests[..n], requests[n..]);
    assert requests[..n] + requests[n..] == requests;
  }

  /** A complete recording whose video is then overwritten: it stays complete, and agrees no longer. */
  lemma LateChunkChangesComplete(digest: Digest)
    ensures var requests := [Prepare("s", true, SAMPLE_ID, 1, 0), SampleChunk(digest, 1),
                             FinalizeWith(digest, SAMPLE_ID, [1], []), SampleChunk(digest, 2)];
            var done := Run(digest, map[], requests);
            IsComplete(done, SAMPLE_ID) && done[SAMPLE_ID].video.Bytes() == [2] && !Agrees(done[SAMPLE_ID].video, [1])
  {
    var prepare, chunk, late := Prepare("s", true, SAMPLE_ID, 1, 0), SampleChunk(digest, 1), SampleChunk(digest, 2);
    var finalize := FinalizeWith(digest, SAMPLE_ID, [1], []);
    SampleHonest(digest);
    NewUploadCompletes(digest, map[], "s", [chunk], SAMPLE_ID, [1], []);
    var completed := [prepare] + ([chunk] + [finalize]);
    OneMoreRequest(digest, map[], completed, late);
    assert completed + [late] == [prepare, chunk, finalize, late];
    StatusKept(digest, Run(digest, map[], completed), late, SAMPLE_ID);
    WrittenBytes([1], 0, [2]);
  }
}
