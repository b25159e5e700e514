/**
 Resumable chunked uploads. A recording has a video and a sensor file; chunks are written at their
 offsets in any order, the highest byte written is kept as a high-water mark, and finalizing compares
 a digest of the stored chunks' digests with the client's. The digest is a parameter: nothing is
 assumed of it but a fixed width, and freedom from collisions only on the inputs compared.
 */
module ChunkedUpload {
  import opened Bytes

  const CHUNK_SIZE := 1_048_576
  const DIGEST_WIDTH := 64

  type Data = seq<u8>

  type Digest = Data -> Data

  /** Integer ceiling division, as the source computes it in floating point. */
  function ChunkCount(size: nat): nat {
    (size + CHUNK_SIZE - 1) / CHUNK_SIZE
  }

  /** How far the chunks of a file of that size can reach. */
  function Extent(size: nat): nat {
    ChunkCount(size) * CHUNK_SIZE
  }

  function Upto(s: Data, n: nat): Data {
    if n <= |s| then s[..n] else s
  }

  function From(s: Data, n: nat): Data {
    if n <= |s| then s[n..] else []
  }

  /** The bytes of chunk `i`; empty past the end of the file. */
  function Block(s: Data, i: nat): Data {
    Upto(From(s, i * CHUNK_SIZE), CHUNK_SIZE)
  }

  /** Seeking and writing: a gap before the offset is filled with zeros, an empty body changes nothing. */
  function WriteAt(s: Data, offset: nat, body: Data): Data {
    if body == [] then s else
    var base := s + seq(if offset <= |s| then 0 else offset - |s|, _ => 0);
    base[..offset] + body + From(base, offset + |body|)
  }

  // ---------------------------------------------------------------------------------------
  // Reading chunks back
  // ---------------------------------------------------------------------------------------

  /** The first `n` chunks that hold any data, read one after the other. */
  function Chunks(s: Data, n: nat): seq<Data>
    decreases n
  {
    if n == 0 || s == [] then [] else [Upto(s, CHUNK_SIZE)] + Chunks(From(s, CHUNK_SIZE), n - 1)
  }

  function Digests(digest: Digest, chunks: seq<Data>): seq<Data> {
    seq(|chunks|, i requires 0 <= i < |chunks| => digest(chunks[i]))
  }

  function Present(checksums: seq<Option<Data>>): seq<Data> {
    if checksums == [] then []
    else (if checksums[0].Some? then [checksums[0].value] else []) + Present(checksums[1..])
  }

  /** Per chunk, its digest, or nothing past the end; a file that does not exist has no chunks. */
  function Reported(digest: Digest, file: Option<Data>, totalSize: nat): seq<Option<Data>> {
    if file.None? then [] else
    seq(ChunkCount(totalSize), i requires i >= 0 =>
      var b := Block(file.value, i); if b == [] then None else Some(digest(b)))
  }

  /** Reads the file from start to end, a buffer at a time. */
  method FileChecksums(digest: Digest, file: Option<Data>, totalSize: nat) returns (checksums: seq<Option<Data>>)
    ensures checksums == Reported(digest, file, totalSize)
  {
    checksums := [];
    if file.None? {
      return;
    }
    var position := 0;
    for i := 0 to ChunkCount(totalSize)
      invariant checksums == Reported(digest, file, totalSize)[..i]
      invariant position == if i * CHUNK_SIZE <= |file.value| then i * CHUNK_SIZE else |file.value|
    {
      var buffer := Upto(file.value[position..], CHUNK_SIZE);
      assert buffer == Block(file.value, i);
      checksums := checksums + [if |buffer| == 0 then None else Some(digest(buffer))];
      position := position + |buffer|;
    }
  }

  function CombinedChecksum(digest: Digest, checksums: seq<Data>): Data {
    digest(Concat(checksums))
  }

  /** What a client that holds `original` announces as its final checksum. */
  function FinalChecksum(digest: Digest, original: Data): Data {
    CombinedChecksum(digest, Digests(digest, Chunks(original, ChunkCount(|original|))))
  }

  lemma ReportedRest(digest: Digest, s: Data, size: nat)
    requires ChunkCount(size) > 0
    ensures var left := if size <= CHUNK_SIZE then 0 else size - CHUNK_SIZE;
            && ChunkCount(left) == ChunkCount(size) - 1
            && Reported(digest, Some(s), size)[1..] == Reported(digest, Some(From(s, CHUNK_SIZE)), left)
  {
    var rest, left := From(s, CHUNK_SIZE), if size <= CHUNK_SIZE then 0 else size - CHUNK_SIZE;
    assert ChunkCount(left) == ChunkCount(size) - 1;
    forall i: nat ensures Block(rest, i) == Block(s, i + 1) {
      assert From(rest, i * CHUNK_SIZE) == From(s, (i + 1) * CHUNK_SIZE);
    }
  }

  /** Dropping the missing entries leaves the digests of the chunks that hold data. */
  lemma {:induction false} PresentIsChunks(digest: Digest, s: Data, size: nat)
    ensures Present(Reported(digest, Some(s), size)) == Digests(digest, Chunks(s, ChunkCount(size)))
    decreases size
  {
    var reported, n := Reported(digest, Some(s), size), ChunkCount(size);
    if n > 0 {
      var rest := From(s, CHUNK_SIZE);
      var left := if size <= CHUNK_SIZE then 0 else size - CHUNK_SIZE;
      assert Block(s, 0) == Upto(s, CHUNK_SIZE);
      ReportedRest(digest, s, size);
      PresentIsChunks(digest, rest, left);
      var tail := Chunks(rest, n - 1);
      if s == [] {
        assert tail == [];
      } else {
        assert Digests(digest, [Upto(s, CHUNK_SIZE)] + tail) == [digest(Upto(s, CHUNK_SIZE))] + Digests(digest, tail);
      }
    }
  }

  lemma {:induction false} ChunksDependOnPrefix(s: Data, n: nat)
    ensures Concat(Chunks(s, n)) == Upto(s, n * CHUNK_SIZE)
    ensures Chunks(s, n) == Chunks(Upto(s, n * CHUNK_SIZE), n)
    decreases n
  {
    if n > 0 && s != [] {
      var rest := From(s, CHUNK_SIZE);
      ChunksDependOnPrefix(rest, n - 1);
      var prefix := Upto(s, n * CHUNK_SIZE);
      assert Upto(prefix, CHUNK_SIZE) == Upto(s, CHUNK_SIZE);
      assert From(prefix, CHUNK_SIZE) == Upto(rest, (n - 1) * CHUNK_SIZE);
      assert Upto(s, CHUNK_SIZE) + Upto(rest, (n - 1) * CHUNK_SIZE) == prefix;
    }
  }

  /** Asking for more chunks than there are changes nothing. */
  lemma {:induction false} MoreChunks(s: Data, n: nat)
    requires n >= ChunkCount(|s|)
    ensures Chunks(s, n) == Chunks(s, ChunkCount(|s|))
    decreases n
  {
    if s != [] {
      var rest := From(s, CHUNK_SIZE);
      assert ChunkCount(|rest|) == ChunkCount(|s|) - 1;
      MoreChunks(rest, n - 1);
    }
  }

  lemma ExtentCovers(size: nat, n: nat)
    ensures size <= n * 1_048_576 <==> ChunkCount(size) <= n
    ensures size <= Extent(size)
  {
  }

  /** Reading `n` chunks of a file gives the original's chunks exactly when the file agrees with the original so far. */
  lemma SameChunks(file: Data, n: nat, original: Data)
    ensures Chunks(file, n) == Chunks(original, ChunkCount(|original|)) <==> Upto(file, n * CHUNK_SIZE) == original
  {
    ExtentCovers(|original|, n);
    ChunksDependOnPrefix(file, n);
    ChunksDependOnPrefix(original, ChunkCount(|original|));
    assert Upto(original, Extent(|original|)) == original;
    if Upto(file, n * CHUNK_SIZE) == original {
      MoreChunks(original, n);
    }
  }

  // ---------------------------------------------------------------------------------------
  // Verification by digests
  // ---------------------------------------------------------------------------------------

  ghost predicate FixedWidth(digest: Digest) {
    forall x :: |digest(x)| == DIGEST_WIDTH
  }

  ghost predicate CollisionFree(digest: Digest, inputs: set<Data>) {
    forall x, y | x in inputs && y in inputs && digest(x) == digest(y) :: x == y
  }

  /** Everything that is hashed when one list of chunks is compared with another. */
  ghost function Compared(digest: Digest, a: seq<Data>, b: seq<Data>): set<Data> {
    (set x | x in a) + (set x | x in b) + {Concat(Digests(digest, a)), Concat(Digests(digest, b))}
  }

  /** Everything that is hashed when a file recorded with `size` is verified against `original`. */
  ghost function Hashed(digest: Digest, file: Data, size: nat, original: Data): set<Data> {
    Compared(digest, Chunks(file, ChunkCount(size)), Chunks(original, ChunkCount(|original|)))
  }

  lemma {:induction false} ConcatInjective(a: seq<Data>, b: seq<Data>)
    requires forall i | 0 <= i < |a| :: |a[i]| == DIGEST_WIDTH
    requires forall i | 0 <= i < |b| :: |b[i]| == DIGEST_WIDTH
    requires Concat(a) == Concat(b)
    ensures a == b
  {
    if a != [] && b != [] {
      var whole := Concat(a);
      assert whole[..DIGEST_WIDTH] == a[0] && whole[DIGEST_WIDTH..] == Concat(a[1..]);
      assert Concat(b)[..DIGEST_WIDTH] == b[0] && Concat(b)[DIGEST_WIDTH..] == Concat(b[1..]);
      ConcatInjective(a[1..], b[1..]);
      assert a == [a[0]] + a[1..] && b == [b[0]] + b[1..];
    }
  }

  /** Without collisions, combined digests are equal exactly for equal lists of chunks. */
  lemma SameDigests(digest: Digest, a: seq<Data>, b: seq<Data>)
    requires FixedWidth(digest) && CollisionFree(digest, Compared(digest, a, b))
    ensures CombinedChecksum(digest, Digests(digest, a)) == CombinedChecksum(digest, Digests(digest, b)) <==> a == b
  {
    if CombinedChecksum(digest, Digests(digest, a)) == CombinedChecksum(digest, Digests(digest, b)) {
      ConcatInjective(Digests(digest, a), Digests(digest, b));
      assert |a| == |Digests(digest, a)| == |b|;
      forall i | 0 <= i < |a| ensures a[i] == b[i] {
        assert Digests(digest, a)[i] == Digests(digest, b)[i];
        assert a[i] in Compared(digest, a, b) && b[i] in Compared(digest, a, b);
      }
    }
  }

  /** The chunks of a file recorded with `size` match the checksum of the original. */
  ghost predicate Verifies(digest: Digest, file: Data, size: nat, original: Data) {
    CombinedChecksum(digest, Digests(digest, Chunks(file, ChunkCount(size)))) == FinalChecksum(digest, original)
  }

  lemma AgreeingVerifies(digest: Digest, file: Data, size: nat, original: Data)
    requires Upto(file, Extent(size)) == original
    ensures Verifies(digest, file, size, original)
  {
    SameChunks(file, ChunkCount(size), original);
  }

  /**
   Whatever size was recorded for it, a file verifies exactly when it agrees with the original over
   the chunks of that size.
   */
  lemma VerifiesExactlyOnPrefix(digest: Digest, file: Data, size: nat, original: Data)
    requires FixedWidth(digest) && CollisionFree(digest, Hashed(digest, file, size, original))
    ensures Verifies(digest, file, size, original) <==> Upto(file, Extent(size)) == original
  {
    SameDigests(digest, Chunks(file, ChunkCount(size)), Chunks(original, ChunkCount(|original|)));
    SameChunks(file, ChunkCount(size), original);
  }

  /** The original itself verifies exactly when it was recorded with a size of at least as many chunks. */
  lemma OriginalVerifiesExactly(digest: Digest, size: nat, original: Data)
    requires FixedWidth(digest) && CollisionFree(digest, Hashed(digest, original, size, original))
    ensures Verifies(digest, original, size, original) <==> ChunkCount(size) >= ChunkCount(|original|)
  {
    VerifiesExactlyOnPrefix(digest, original, size, original);
    ExtentCovers(|original|, ChunkCount(size));
  }

  /**
   What verification misses: a verified file differs from the original exactly when the original
   fills the chunks of the recorded size and the file is the original with something appended.
   */
  lemma VerifiedYetDifferent(digest: Digest, file: Data, size: nat, original: Data)
    requires FixedWidth(digest) && CollisionFree(digest, Hashed(digest, file, size, original))
    ensures Verifies(digest, file, size, original) && file != original
       <==> |original| == Extent(size) && |file| > |original| && file[..|original|] == original
  {
    VerifiesExactlyOnPrefix(digest, file, size, original);
  }

  /** A byte appended to an empty file goes unseen, whatever the digest. */
  lemma AppendedByteVerifies(digest: Digest)
    ensures Verifies(digest, [1], 0, []) && [1] != []
  {
    assert Chunks([1], 0) == Chunks([], 0) == [];
  }

  // ---------------------------------------------------------------------------------------
  // Uploading in any order
  // ---------------------------------------------------------------------------------------

  lemma WrittenBytes(s: Data, offset: nat, body: Data)
    requires body != []
    ensures |WriteAt(s, offset, body)| == if |s| <= offset + |body| then offset + |body| else |s|
    ensures forall k | 0 <= k < |WriteAt(s, offset, body)| ::
              WriteAt(s, offset, body)[k]
              == if offset <= k < offset + |body| then body[k - offset] else if k < |s| then s[k] else 0
  {
  }

  /** Writes the original's own chunks, in the order given, over `before`. */
  function Uploaded(before: Data, original: Data, order: seq<nat>): Data {
    if order == [] then before else
    var i := order[|order| - 1];
    WriteAt(Uploaded(before, original, order[..|order| - 1]), i * CHUNK_SIZE, Block(original, i))
  }

  /** The high-water mark after the same writes. */
  function Mark(mark: nat, original: Data, order: seq<nat>): nat {
    if order == [] then mark else
    var i := order[|order| - 1];
    var prev, end := Mark(mark, original, order[..|order| - 1]), i * CHUNK_SIZE + |Block(original, i)|;
    if prev >= end then prev else end
  }

  ghost predicate InRange(order: seq<nat>, original: Data) {
    forall i | 0 <= i < |order| :: order[i] < ChunkCount(|original|)
  }

  /** Byte `k` of the original has been uploaded. */
  predicate Sent(original: Data, order: seq<nat>, k: nat) {
    k < |original| && k / CHUNK_SIZE in order
  }

  /** The file so far: uploaded bytes are the original's, the others are as before. */
  ghost predicate Partial(r: Data, before: Data, original: Data, order: seq<nat>) {
    && |before| <= |r| <= (if |before| >= |original| then |before| else |original|)
    && (forall k: nat | Sent(original, order, k) :: k < |r| && r[k] == original[k])
    && (forall k: nat | k < |before| && !Sent(original, order, k) :: r[k] == before[k])
  }

  lemma BlockExtent(s: Data, i: nat)
    requires i < ChunkCount(|s|)
    ensures Block(s, i) != []
    ensures i * CHUNK_SIZE + |Block(s, i)| == if (i + 1) * CHUNK_SIZE <= |s| then (i + 1) * CHUNK_SIZE else |s|
    ensures forall k | 0 <= k < |Block(s, i)| :: Block(s, i)[k] == s[i * CHUNK_SIZE + k]
  {
  }

  lemma SentAppend(original: Data, order: seq<nat>, i: nat, k: nat)
    requires i < ChunkCount(|original|)
    ensures var offset := i * CHUNK_SIZE;
            Sent(original, order + [i], k)
            <==> Sent(original, order, k) || offset <= k < offset + |Block(original, i)|
  {
    BlockExtent(original, i);
    var q := k / CHUNK_SIZE;
    assert q * CHUNK_SIZE <= k < (q + 1) * CHUNK_SIZE;
  }

  lemma WriteKeepsPartial(r: Data, before: Data, original: Data, order: seq<nat>, i: nat)
    requires Partial(r, before, original, order) && i < ChunkCount(|original|)
    ensures Partial(WriteAt(r, i * CHUNK_SIZE, Block(original, i)), before, original, order + [i])
  {
    var offset, body := i * CHUNK_SIZE, Block(original, i);
    var w := WriteAt(r, offset, body);
    BlockExtent(original, i);
    WrittenBytes(r, offset, body);
    forall k: nat | Sent(original, order + [i], k)
      ensures k < |w| && w[k] == original[k]
    {
      SentAppend(original, order, i, k);
      if offset <= k < offset + |body| {
        assert body[k - offset] == original[offset + (k - offset)];
      }
    }
    forall k: nat | k < |before| && !Sent(original, order + [i], k)
      ensures w[k] == before[k]
    {
      SentAppend(original, order, i, k);
    }
  }

  lemma OneMoreUploaded(before: Data, original: Data, prev: seq<nat>, i: nat)
    requires InRange(prev + [i], original)
    ensures InRange(prev, original) && i < ChunkCount(|original|)
    ensures Uploaded(before, original, prev + [i])
         == WriteAt(Uploaded(before, original, prev), i * CHUNK_SIZE, Block(original, i))
  {
    var order := prev + [i];
    assert order[..|prev|] == prev && order[|prev|] == i;
    forall j | 0 <= j < |prev| ensures prev[j] < ChunkCount(|original|) {
      assert order[j] == prev[j];
    }
  }

  lemma {:induction false} UploadIsPartial(before: Data, original: Data, order: seq<nat>)
    requires InRange(order, original)
    ensures Partial(Uploaded(before, original, order), before, original, order)
  {
    if order != [] {
      var prev, i := order[..|order| - 1], order[|order| - 1];
      assert order == prev + [i];
      OneMoreUploaded(before, original, prev, i);
      UploadIsPartial(before, original, prev);
      WriteKeepsPartial(Uploaded(before, original, prev), before, original, prev, i);
    }
  }

  lemma {:induction false} MarkIsLength(before: Data, original: Data, order: seq<nat>)
    requires InRange(order, original)
    ensures Mark(|before|, original, order) == |Uploaded(before, original, order)|
  {
    if order != [] {
      var prev, i := order[..|order| - 1], order[|order| - 1];
      MarkIsLength(before, original, prev);
      BlockExtent(original, i);
      WrittenBytes(Uploaded(before, original, prev), i * CHUNK_SIZE, Block(original, i));
    }
  }

  /**
   Any order, with repeats, resuming over any earlier file: if each chunk is either uploaded or was
   already right, the result is the original, followed only by what the earlier file had beyond it,
   and the high-water mark is the file's length.
   */
  lemma ResumedUploadCompletes(before: Data, original: Data, order: seq<nat>)
    requires InRange(order, original)
    requires forall i | 0 <= i < ChunkCount(|original|) :: i in order || Block(before, i) == Block(original, i)
    ensures Uploaded(before, original, order) == original + From(before, |original|)
    ensures Mark(|before|, original, order) == |Uploaded(before, original, order)|
  {
    var r := Uploaded(before, original, order);
    UploadIsPartial(before, original, order);
    MarkIsLength(before, original, order);
    forall k: nat | k < |original| ensures k < |r| && r[k] == original[k] {
      CompletedByte(r, before, original, order, k);
    }
    if original != [] {
      CompletedByte(r, before, original, order, |original| - 1);
    }
    forall k: nat | |original| <= k < |before| ensures r[k] == before[k] {
      assert !Sent(original, order, k);
    }
    OriginalThenRest(r, before, original);
  }

  lemma OriginalThenRest(r: Data, before: Data, original: Data)
    requires |r| == if |before| >= |original| then |before| else |original|
    requires forall k: nat | k < |original| :: r[k] == original[k]
    requires forall k: nat | |original| <= k < |before| :: r[k] == before[k]
    ensures r == original + From(before, |original|)
  {
  }

  lemma CompletedByte(r: Data, before: Data, original: Data, order: seq<nat>, k: nat)
    requires Partial(r, before, original, order) && k < |original|
    requires k / CHUNK_SIZE in order || Block(before, k / CHUNK_SIZE) == Block(original, k / CHUNK_SIZE)
    ensures k < |r| && r[k] == original[k]
  {
    if !Sent(original, order, k) {
      BlockAgrees(before, original, k / CHUNK_SIZE, k);
    }
  }

  lemma BlockAgrees(a: Data, b: Data, i: nat, k: nat)
    requires Block(a, i) == Block(b, i) && i * CHUNK_SIZE <= k < (i + 1) * CHUNK_SIZE && k < |b|
    ensures k < |a| && a[k] == b[k]
  {
    var j := k - i * CHUNK_SIZE;
    assert Block(b, i)[j] == b[k];
    assert Block(a, i)[j] == a[k];
  }
}
