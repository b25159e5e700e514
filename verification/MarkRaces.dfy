/**
 Overlapping requests for one file. A prepare reads the file's length and stores it as the mark later;
 a chunk writes its data and raises the mark later. In between, other requests go on. This is what
 becomes of the mark in every interleaving.
 */
module MarkRaces {
  import opened Bytes
  import opened ChunkedUpload
  import opened UploadService

  datatype Race = Race(
    content: Data,
    mark: nat,
    lengths: seq<nat>,  // read by prepares, not yet stored
    ends: seq<nat>)     // of chunks written, for which the mark is not yet raised

  datatype RaceStep =
    | ReadLength
    | StoreMark(prepare: nat)
    | WriteChunk(index: nat, body: Data)
    | RaiseMark(chunk: nat)

  const NO_FILE := Race([], 0, [], [])

  function Without(s: seq<nat>, i: nat): seq<nat>
    requires i < |s|
  {
    s[..i] + s[i + 1..]
  }

  function Larger(a: nat, b: nat): nat {
    if a >= b then a else b
  }

  function Next(r: Race, step: RaceStep): Race {
    match step
    case ReadLength => r.(lengths := r.lengths + [|r.content|])
    case StoreMark(i) =>
      if i >= |r.lengths| then r else r.(mark := r.lengths[i], lengths := Without(r.lengths, i))
    case WriteChunk(index, body) =>
      r.(content := WriteAt(r.content, index * CHUNK_SIZE, body), ends := r.ends + [index * CHUNK_SIZE + |body|])
    case RaiseMark(i) =>
      if i >= |r.ends| then r else r.(mark := Larger(r.mark, r.ends[i]), ends := Without(r.ends, i))
  }

  function Run(r: Race, steps: seq<RaceStep>): Race {
    if steps == [] then r else Next(Run(r, steps[..|steps| - 1]), steps[|steps| - 1])
  }

  ghost predicate Shows(r: Race, f: StoredFile) {
    r.content == f.Bytes() && r.mark == f.uploadedBytes
  }

  /** Without anything between its two steps, a chunk does what the endpoint does; nor does it touch the others' business. */
  lemma ChunkInOneGo(r: Race, f: StoredFile, index: nat, body: Data)
    requires Shows(r, f)
    ensures var done := Next(Next(r, WriteChunk(index, body)), RaiseMark(|r.ends|));
            Shows(done, Written(f, index, body)) && done.lengths == r.lengths && done.ends == r.ends
  {
    assert Without(r.ends + [index * CHUNK_SIZE + |body|], |r.ends|) == r.ends;
  }

  lemma PrepareInOneGo(r: Race, rec: Recording, f: StoredFile)
    requires Shows(r, f)
    ensures var done := Next(Next(r, ReadLength), StoreMark(|r.lengths|));
            && Shows(done, f.(uploadedBytes := FoundLength(rec, rec.session, f)))
            && done.lengths == r.lengths && done.ends == r.ends
  {
    assert Without(r.lengths + [|r.content|], |r.lengths|) == r.lengths;
  }

  // ---------------------------------------------------------------------------------------
  // The mark never runs ahead
  // ---------------------------------------------------------------------------------------

  ghost predicate Behind(r: Race) {
    && r.mark <= |r.content|
    && (forall i | 0 <= i < |r.lengths| :: r.lengths[i] <= |r.content|)
    && (forall i | 0 <= i < |r.ends| :: r.ends[i] <= |r.content|)
  }

  predicate HoldsData(step: RaceStep) {
    step.WriteChunk? ==> step.body != []
  }

  lemma StepBehind(r: Race, step: RaceStep)
    requires Behind(r) && HoldsData(step)
    ensures Behind(Next(r, step))
  {
    if step.WriteChunk? {
      WrittenBytes(r.content, step.index * CHUNK_SIZE, step.body);
    }
  }

  /** In every interleaving of chunks that hold data and prepares, the mark never exceeds the length. */
  lemma {:induction false} NeverAhead(steps: seq<RaceStep>)
    requires forall i | 0 <= i < |steps| :: HoldsData(steps[i])
    ensures Behind(Run(NO_FILE, steps))
  {
    if steps != [] {
      NeverAhead(steps[..|steps| - 1]);
      StepBehind(Run(NO_FILE, steps[..|steps| - 1]), steps[|steps| - 1]);
    }
  }

  // ---------------------------------------------------------------------------------------
  // When the mark is the length
  // ---------------------------------------------------------------------------------------

  /** What the mark was last stored as and has been raised to since, beginning with the zero of a new row. */
  function SinceLastStore(steps: seq<RaceStep>): seq<nat> {
    if steps == [] then [0] else
    var earlier := SinceLastStore(steps[..|steps| - 1]);
    var r := Run(NO_FILE, steps[..|steps| - 1]);
    match steps[|steps| - 1]
    case StoreMark(i) => if i < |r.lengths| then [r.lengths[i]] else earlier
    case RaiseMark(i) => if i < |r.ends| then earlier + [r.ends[i]] else earlier
    case _ => earlier
  }

  ghost predicate Largest(x: nat, values: seq<nat>) {
    x in values && forall y | y in values :: y <= x
  }

  lemma OneMoreRaise(values: seq<nat>, mark: nat, end: nat)
    requires Largest(mark, values)
    ensures Largest(Larger(mark, end), values + [end])
  {
    assert (values + [end])[|values|] == end;
  }

  /** In every interleaving, the mark is the largest of these. */
  lemma {:induction false} MarkIsLargest(steps: seq<RaceStep>)
    ensures Largest(Run(NO_FILE, steps).mark, SinceLastStore(steps))
  {
    if steps != [] {
      var prev, last := steps[..|steps| - 1], steps[|steps| - 1];
      MarkIsLargest(prev);
      var r := Run(NO_FILE, prev);
      if last.RaiseMark? && last.chunk < |r.ends| {
        OneMoreRaise(SinceLastStore(prev), r.mark, r.ends[last.chunk]);
      }
    }
  }

  /**
   In every interleaving, the mark is the file's length exactly when, since a length was last stored,
   that length itself was stored or raised to, and nothing larger. With chunks that hold data nothing
   larger ever is.
   */
  lemma MarkedExactly(steps: seq<RaceStep>)
    ensures var r := Run(NO_FILE, steps);
            && (r.mark == |r.content| <==> Largest(|r.content|, SinceLastStore(steps)))
            && ((forall i | 0 <= i < |steps| :: HoldsData(steps[i])) ==>
                  (r.mark == |r.content| <==> |r.content| in SinceLastStore(steps)))
  {
    MarkIsLargest(steps);
    if forall i | 0 <= i < |steps| :: HoldsData(steps[i]) {
      NeverAhead(steps);
    }
  }

  /** A chunk that comes and goes between the two steps of a prepare: all is done, and the mark is behind. */
  lemma OverlapLeavesMarkBehind()
    ensures var r := Run(NO_FILE, [ReadLength, WriteChunk(0, [1]), RaiseMark(0), StoreMark(0)]);
            r.lengths == [] && r.ends == [] && |r.content| == 1 && r.mark == 0
  {
    var a, b, c, d := ReadLength, WriteChunk(0, [1]), RaiseMark(0), StoreMark(0);
    var steps := [a, b, c, d];
    assert steps[..3] == [a, b, c] && [a, b, c][..2] == [a, b] && [a, b][..1] == [a] && [a][..0] == [];
    assert Run(NO_FILE, [a]) == Race([], 0, [0], []);
    WrittenBytes([], 0, [1]);
    var written := Run(NO_FILE, [a, b]);
    assert written == Next(Run(NO_FILE, [a]), b) && written.ends == [1] && written.lengths == [0];
    assert Run(NO_FILE, [a, b, c]) == Next(written, c);
    assert Without([1], 0) == [] && Without([0], 0) == [];
  }
}
