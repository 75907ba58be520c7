/** internal/outputcapture: counts and digests everything, keeps a bounded prefix. */
module OutputCapture {
  import opened Protocol

  const MAX_UINT64 := 0xFFFF_FFFF_FFFF_FFFF

  datatype Snapshot = Snapshot(metadata: OutputMetadata, retained: bytes)

  function Retained(limit: nat, written: bytes): bytes
  {
    if |written| <= limit then written else written[..limit]
  }

  /** What Snapshot reports once `written` is everything the accepted writes carried. */
  function SnapshotOf(lib: Library, limit: nat, written: bytes): Option<Snapshot>
  {
    if |written| > MAX_INT64 then None
    else
      var retained := Retained(limit, written);
      Some(Snapshot(OutputMetadata(Digest(lib, written), |written|, |retained|, |retained| < |written|), retained))
  }

  /** A snapshot always passes validateOutputMetadata and its retained bytes pass validateOutput. */
  lemma SnapshotIsValid(lib: Library, limit: nat, written: bytes)
    requires Lawful(lib) && limit <= MAX_OUTPUT_BYTES
    ensures var snapshot := SnapshotOf(lib, limit, written);
            snapshot.Some? ==>
              && OutputMetadataValid(snapshot.value.metadata)
              && |snapshot.value.retained| == snapshot.value.metadata.retainedBytes <= limit
              && snapshot.value.retained <= written
              && (snapshot.value.metadata.truncated <==> snapshot.value.retained != written)
              && (!snapshot.value.metadata.truncated ==>
                    Digest(lib, snapshot.value.retained) == snapshot.value.metadata.sha256)
  {
  }

  function Concat(chunks: seq<bytes>): bytes
  {
    if chunks == [] then [] else chunks[0] + Concat(chunks[1..])
  }

  /** What a capture holding `written` holds after a stream of writes that ends at the first refusal. */
  function AcceptedBytes(written: bytes, chunks: seq<bytes>): bytes
    decreases chunks
  {
    if chunks == [] || |written| + |chunks[0]| > MAX_UINT64 then written
    else AcceptedBytes(written + chunks[0], chunks[1..])
  }

  /** Chunk boundaries do not matter: accepted writes amount to their concatenation. */
  lemma {:induction false} AcceptedIsConcat(written: bytes, chunks: seq<bytes>)
    ensures AcceptedBytes(written, chunks) == written + Concat(chunks) <==>
            |written + Concat(chunks)| <= MAX_UINT64 || Concat(chunks) == []
    ensures written <= AcceptedBytes(written, chunks) <= written + Concat(chunks)
    decreases chunks
  {
    if chunks == [] {
    } else {
      assert written + chunks[0] + Concat(chunks[1..]) == written + Concat(chunks);
      AcceptedIsConcat(written + chunks[0], chunks[1..]);
    }
  }

  class Capture {
    const lib: Library
    const limit: nat
    var total: nat
    var digest: nat
    var retained: bytes
    ghost var written: bytes

    ghost predicate Valid()
      reads this
    {
      && Lawful(lib) && MIN_OUTPUT_BYTES <= limit <= MAX_OUTPUT_BYTES
      && total == |written| <= MAX_UINT64
      && digest == lib.hashAbsorb(lib.hashStart, written)
      && retained == Retained(limit, written)
    }

    constructor (lib: Library, limit: nat)
      requires Lawful(lib) && MIN_OUTPUT_BYTES <= limit <= MAX_OUTPUT_BYTES
      ensures Valid() && written == [] && this.lib == lib && this.limit == limit
    {
      this.lib, this.limit := lib, limit;
      total, digest, retained, written := 0, lib.hashStart, [], [];
    }

    /** The 64-bit count never wraps: a write that would overflow it changes nothing. */
    method Write(content: bytes) returns (accepted: bool)
      requires Valid()
      modifies this
      ensures Valid()
      ensures accepted <==> old(total) + |content| <= MAX_UINT64
      ensures written == if accepted then old(written) + content else old(written)
    {
      if |content| > MAX_UINT64 - total { return false; }
      assert AbsorbsInParts(lib, lib.hashStart, written, content);
      digest := lib.hashAbsorb(digest, content);
      total := total + |content|;
      var remaining := limit - |retained|;
      if remaining > |content| { remaining := |content|; }
      if remaining > 0 { retained := retained + content[..remaining]; }
      written := written + content;
      accepted := true;
    }

    /** A stream of writes, ended by the first one that is refused. */
    method WriteChunks(chunks: seq<bytes>) returns (accepted: bool)
      requires Valid()
      modifies this
      ensures Valid()
      ensures written == AcceptedBytes(old(written), chunks)
    {
      for i := 0 to |chunks|
        invariant Valid() && AcceptedBytes(written, chunks[i..]) == AcceptedBytes(old(written), chunks)
      {
        accepted := Write(chunks[i]);
        assert chunks[i..][1..] == chunks[i + 1..];
        if !accepted { return; }
      }
      accepted := true;
    }

    method TakeSnapshot() returns (snapshot: Option<Snapshot>)
      requires Valid()
      ensures snapshot == SnapshotOf(lib, limit, written)
    {
      if total > MAX_INT64 { return None; }
      snapshot := Some(Snapshot(
        OutputMetadata(lib.hashSum(digest), total, |retained|, |retained| < total), retained));
    }
  }

  /** New: a limit outside the protocol bounds is refused. */
  method NewCapture(lib: Library, limit: int) returns (capture: Capture?)
    requires Lawful(lib)
    ensures capture == null <==> limit < MIN_OUTPUT_BYTES || limit > MAX_OUTPUT_BYTES
    ensures capture != null ==>
              fresh(capture) && capture.Valid() && capture.written == [] && capture.lib == lib && capture.limit == limit
  {
    if limit < MIN_OUTPUT_BYTES || limit > MAX_OUTPUT_BYTES { return null; }
    capture := new Capture(lib, limit);
  }
}
