/** internal/brokerwire: the response stream, as its writer produces it and as any reader must take it. */
module BrokerWire {
  import opened Protocol
  import opened IpcFrame
  import opened ExecutionRun
  import opened OutputCapture

  const MAX_PREAMBLE_BYTES := 1024
  const MAX_DATA_CHUNK_BYTES := 64 * 1024
  const MAX_EXCHANGE_MARKER_BYTES := 16

  const TERMINAL_MARKER: bytes := [65, 87, 71, 1, 68, 79, 78, 69]   // AWG\x01DONE
  const ACKNOWLEDGEMENT_MARKER: bytes := [65, 87, 71, 1, 65, 67, 75] // AWG\x01ACK

  datatype Outcome = ExecutionOutcome | RejectedOutcome | UnsupportedOutcome

  datatype Failure =
    | NoFailure | InvalidFrame | InvalidEnvelope | AuthorizationDenied
    | ExecutionUnavailable | ResponseUnavailable | UnsupportedFailure

  datatype Preamble = Preamble(
    version: int, outcome: Outcome, failure: Failure, stdoutRetainedSha256: string, stderrRetainedSha256: string)

  predicate PreambleValid(preamble: Preamble)
  {
    && preamble.version == 1 && preamble.failure != UnsupportedFailure
    && match preamble.outcome
       case ExecutionOutcome =>
         preamble.failure == NoFailure
         && LowerHex(preamble.stdoutRetainedSha256, 64) && LowerHex(preamble.stderrRetainedSha256, 64)
       case RejectedOutcome =>
         preamble.failure != NoFailure
         && preamble.stdoutRetainedSha256 == "" && preamble.stderrRetainedSha256 == ""
       case UnsupportedOutcome => false
  }

  /** The JSON encodings of the two records. */
  datatype Codec = Codec(
    encodePreamble: Preamble -> bytes, decodePreamble: bytes -> Option<Preamble>,
    encodeReport: ExecutionReport -> bytes, decodeReport: bytes -> Option<ExecutionReport>)

  /** Decoding undoes encoding on valid records, and no encoding is empty. */
  ghost predicate Faithful(lib: Library, codec: Codec)
  {
    && (forall p :: PreambleValid(p) ==> codec.decodePreamble(codec.encodePreamble(p)) == Some(p))
    && (forall r :: ReportValid(lib, r) ==> codec.decodeReport(codec.encodeReport(r)) == Some(r))
    && (forall p :: codec.encodePreamble(p) != [])
    && (forall r :: codec.encodeReport(r) != [])
  }

  // ----- Reading -----

  function Prepend(front: bytes, parse: Parse<bytes>): Parse<bytes>
  {
    match parse
    case Done(value, rest) => Done(front + value, rest)
    case Starved => Starved
    case Denied => Denied
  }

  /** `size` bytes, in frames of at most a data chunk that together carry exactly that much. */
  function ReadContent(stream: bytes, size: nat): (r: Parse<bytes>)
    ensures r.Done? ==> |r.value| == size && |r.rest| <= |stream|
    decreases |stream|
  {
    if size == 0 then Done([], stream)
    else
      match ReadFrame(stream, MAX_DATA_CHUNK_BYTES)
      case Starved => Starved
      case Denied => Denied
      case Done(chunk, rest) =>
        if |chunk| > size then Denied else Prepend(chunk, ReadContent(rest, size - |chunk|))
  }

  datatype Delivery =
    | Rejection(failure: Failure)
    | Delivery(report: ExecutionReport, stdout: bytes, stderr: bytes, artifacts: seq<bytes>)

  /** One content per manifest entry, each of the declared size and digest. */
  ghost function ReadArtifacts(lib: Library, stream: bytes, files: seq<ArtifactFile>): Parse<seq<bytes>>
    decreases files
  {
    if files == [] then Done([], stream)
    else if files[0].sizeBytes < 0 then Denied
    else
      match ReadContent(stream, files[0].sizeBytes)
      case Starved => Starved
      case Denied => Denied
      case Done(content, rest) =>
        if Digest(lib, content) != files[0].sha256 then Denied
        else
          match ReadArtifacts(lib, rest, files[1..])
          case Starved => Starved
          case Denied => Denied
          case Done(contents, after) => Done([content] + contents, after)
  }

  /** Retained output of the declared size and the preamble's digest. */
  ghost function ReadRetained(lib: Library, stream: bytes, size: int, sha256: string): Parse<bytes>
  {
    if size < 0 || size > MAX_OUTPUT_BYTES then Denied
    else
      match ReadContent(stream, size)
      case Starved => Starved
      case Denied => Denied
      case Done(content, rest) => if Digest(lib, content) != sha256 then Denied else Done(content, rest)
  }

  ghost function ReadBody(lib: Library, stream: bytes, preamble: Preamble, report: ExecutionReport): Parse<Delivery>
  {
    match ReadRetained(lib, stream, report.stdout.retainedBytes, preamble.stdoutRetainedSha256)
    case Starved => Starved
    case Denied => Denied
    case Done(stdout, afterStdout) =>
      match ReadRetained(lib, afterStdout, report.stderr.retainedBytes, preamble.stderrRetainedSha256)
      case Starved => Starved
      case Denied => Denied
      case Done(stderr, afterStderr) =>
        match ReadArtifacts(lib, afterStderr, report.artifacts.Files())
        case Starved => Starved
        case Denied => Denied
        case Done(artifacts, rest) => Done(Delivery(report, stdout, stderr, artifacts), rest)
  }

  ghost function ReadReport(lib: Library, codec: Codec, stream: bytes, preamble: Preamble): Parse<Delivery>
  {
    match ReadFrame(stream, MAX_REPORT_BYTES)
    case Starved => Starved
    case Denied => Denied
    case Done(encoded, rest) =>
      var report := codec.decodeReport(encoded);
      if report.None? || !ReportValid(lib, report.value) then Denied
      else ReadBody(lib, rest, preamble, report.value)
  }

  /** The whole response in front of the terminal marker, read off the front of a stream. */
  ghost function ReadReply(lib: Library, codec: Codec, stream: bytes): Parse<Delivery>
  {
    match ReadFrame(stream, MAX_PREAMBLE_BYTES)
    case Starved => Starved
    case Denied => Denied
    case Done(encoded, rest) =>
      var preamble := codec.decodePreamble(encoded);
      if preamble.None? || !PreambleValid(preamble.value) then Denied
      else if preamble.value.outcome == RejectedOutcome then Done(Rejection(preamble.value.failure), rest)
      else ReadReport(lib, codec, rest, preamble.value)
  }

  // ----- What was decided stays decided -----

  ghost predicate StaysDecided<T(!new)>(before: Parse<T>, after: Parse<T>, more: bytes)
  {
    match before
    case Done(value, rest) => after == Done(value, rest + more)
    case Denied => after.Denied?
    case Starved => true
  }

  lemma {:induction false} ContentDecided(stream: bytes, size: nat, more: bytes)
    ensures StaysDecided(ReadContent(stream, size), ReadContent(stream + more, size), more)
    decreases |stream|
  {
    if size > 0 {
      FrameDecided(stream, more, MAX_DATA_CHUNK_BYTES);
      var frame := ReadFrame(stream, MAX_DATA_CHUNK_BYTES);
      if frame.Done? && |frame.value| <= size {
        ContentDecided(frame.rest, size - |frame.value|, more);
      }
    }
  }

  lemma {:induction false} ArtifactsDecided(lib: Library, stream: bytes, files: seq<ArtifactFile>, more: bytes)
    ensures StaysDecided(ReadArtifacts(lib, stream, files), ReadArtifacts(lib, stream + more, files), more)
    decreases files
  {
    if files != [] && files[0].sizeBytes >= 0 {
      ContentDecided(stream, files[0].sizeBytes, more);
      var content := ReadContent(stream, files[0].sizeBytes);
      if content.Done? {
        ArtifactsDecided(lib, content.rest, files[1..], more);
      }
    }
  }

  lemma BodyDecided(lib: Library, stream: bytes, preamble: Preamble, report: ExecutionReport, more: bytes)
    ensures StaysDecided(ReadBody(lib, stream, preamble, report), ReadBody(lib, stream + more, preamble, report), more)
  {
    if 0 <= report.stdout.retainedBytes <= MAX_OUTPUT_BYTES {
      ContentDecided(stream, report.stdout.retainedBytes, more);
    }
    var stdout := ReadRetained(lib, stream, report.stdout.retainedBytes, preamble.stdoutRetainedSha256);
    if stdout.Done? {
      if 0 <= report.stderr.retainedBytes <= MAX_OUTPUT_BYTES {
        ContentDecided(stdout.rest, report.stderr.retainedBytes, more);
      }
      var stderr := ReadRetained(lib, stdout.rest, report.stderr.retainedBytes, preamble.stderrRetainedSha256);
      if stderr.Done? {
        ArtifactsDecided(lib, stderr.rest, report.artifacts.Files(), more);
      }
    }
  }

  /** The response parser is online: later bytes never change what earlier bytes decided. */
  lemma ReplyDecided(lib: Library, codec: Codec, stream: bytes, more: bytes)
    ensures StaysDecided(ReadReply(lib, codec, stream), ReadReply(lib, codec, stream + more), more)
  {
    hide ReportValid, ReadBody;
    FrameDecided(stream, more, MAX_PREAMBLE_BYTES);
    var first := ReadFrame(stream, MAX_PREAMBLE_BYTES);
    if first.Done? {
      var preamble := codec.decodePreamble(first.value);
      if preamble.Some? && PreambleValid(preamble.value) && preamble.value.outcome != RejectedOutcome {
        FrameDecided(first.rest, more, MAX_REPORT_BYTES);
        var second := ReadFrame(first.rest, MAX_REPORT_BYTES);
        if second.Done? {
          var report := codec.decodeReport(second.value);
          if report.Some? {
            BodyDecided(lib, second.rest, preamble.value, report.value, more);
          }
        }
      }
    }
  }

  /** Every proper prefix of a complete response leaves its reader waiting, neither done nor refusing. */
  lemma PrefixStarves(lib: Library, codec: Codec, prefix: bytes, more: bytes, delivery: Delivery)
    requires more != [] && ReadReply(lib, codec, prefix + more) == Done(delivery, [])
    ensures ReadReply(lib, codec, prefix) == Starved
  {
    hide ReadReply;
    ReplyDecided(lib, codec, prefix, more);
  }

  // ----- Writing -----

  ghost predicate LegalChunks(chunks: seq<bytes>)
  {
    forall k :: 0 <= k < |chunks| ==> 0 < |chunks[k]| <= MAX_DATA_CHUNK_BYTES
  }

  /** The frames of a content split into `chunks`. */
  ghost function ChunkFrames(chunks: seq<bytes>): bytes
    requires LegalChunks(chunks)
  {
    if chunks == [] then [] else FrameBytes(chunks[0]) + ChunkFrames(chunks[1..])
  }

  /** Any split into legal chunks reads back as the whole content. */
  lemma {:induction false} ContentRoundTrip(chunks: seq<bytes>, tail: bytes)
    requires LegalChunks(chunks)
    ensures ReadContent(ChunkFrames(chunks) + tail, |Concat(chunks)|) == Done(Concat(chunks), tail)
  {
    if chunks == [] {
      assert ChunkFrames(chunks) + tail == tail;
    } else {
      var rest := ChunkFrames(chunks[1..]) + tail;
      assert ChunkFrames(chunks) + tail == FrameBytes(chunks[0]) + rest;
      FrameRoundTrip(chunks[0], rest, MAX_DATA_CHUNK_BYTES);
      ContentRoundTrip(chunks[1..], tail);
    }
  }

  /** Surplus content is never absorbed: the reader refuses the overrunning chunk, or the surplus is
      still in the stream where the next part of the response should start. */
  lemma {:induction false} SurplusStays(chunks: seq<bytes>, tail: bytes, size: nat)
    requires LegalChunks(chunks) && size < |Concat(chunks)|
    ensures var r := ReadContent(ChunkFrames(chunks) + tail, size);
            r.Done? ==> exists k :: 0 <= k < |chunks| && size == |Concat(chunks[..k])| && |r.rest| > |tail|
  {
    var rest := ChunkFrames(chunks[1..]) + tail;
    assert ChunkFrames(chunks) + tail == FrameBytes(chunks[0]) + rest;
    FrameRoundTrip(chunks[0], rest, MAX_DATA_CHUNK_BYTES);
    if size == 0 {
      assert chunks[..0] == [];
    } else if |chunks[0]| <= size {
      SurplusStays(chunks[1..], tail, size - |chunks[0]|);
      var r := ReadContent(rest, size - |chunks[0]|);
      if r.Done? {
        var k :| 0 <= k < |chunks[1..]| && size - |chunks[0]| == |Concat(chunks[1..][..k])|;
        assert chunks[..k + 1][1..] == chunks[1..][..k];
        assert size == |Concat(chunks[..k + 1])|;
      }
    }
  }

  /** writeBytes: full data chunks, then what is left. */
  ghost function Chunked(content: bytes): (chunks: seq<bytes>)
    ensures LegalChunks(chunks)
  {
    if content == [] then []
    else if |content| <= MAX_DATA_CHUNK_BYTES then [content]
    else [content[..MAX_DATA_CHUNK_BYTES]] + Chunked(content[MAX_DATA_CHUNK_BYTES..])
  }

  lemma {:induction false} ChunkedConcat(content: bytes)
    ensures Concat(Chunked(content)) == content
  {
    if content == [] {
    } else if |content| <= MAX_DATA_CHUNK_BYTES {
      assert Concat([content]) == content + Concat([]);
    } else {
      ChunkedConcat(content[MAX_DATA_CHUNK_BYTES..]);
      var chunks := Chunked(content);
      assert chunks[1..] == Chunked(content[MAX_DATA_CHUNK_BYTES..]);
      assert content == content[..MAX_DATA_CHUNK_BYTES] + content[MAX_DATA_CHUNK_BYTES..];
    }
  }

  ghost predicate AllLegal(splits: seq<seq<bytes>>)
  {
    forall k :: 0 <= k < |splits| ==> LegalChunks(splits[k])
  }

  /** The artifact part of a response, one split per file. */
  ghost function ArtifactFrames(splits: seq<seq<bytes>>): bytes
    requires AllLegal(splits)
  {
    if splits == [] then [] else ChunkFrames(splits[0]) + ArtifactFrames(splits[1..])
  }

  ghost function Contents(splits: seq<seq<bytes>>): (contents: seq<bytes>)
    ensures |contents| == |splits|
    ensures forall k :: 0 <= k < |splits| ==> contents[k] == Concat(splits[k])
  {
    if splits == [] then [] else [Concat(splits[0])] + Contents(splits[1..])
  }

  ghost predicate Carries(lib: Library, split: seq<bytes>, file: ArtifactFile)
  {
    LegalChunks(split) && |Concat(split)| == file.sizeBytes && Digest(lib, Concat(split)) == file.sha256
  }

  lemma {:induction false} ArtifactsRoundTrip(lib: Library, files: seq<ArtifactFile>, splits: seq<seq<bytes>>,
                                              tail: bytes)
    requires |files| == |splits| && AllLegal(splits)
    requires forall k :: 0 <= k < |files| ==> Carries(lib, splits[k], files[k])
    ensures ReadArtifacts(lib, ArtifactFrames(splits) + tail, files) ==
            Done(Contents(splits), tail)
  {
    hide ReadContent, ChunkFrames;
    if files == [] {
      assert ArtifactFrames(splits) + tail == tail;
    } else {
      var rest := ArtifactFrames(splits[1..]) + tail;
      assert ArtifactFrames(splits) + tail == ChunkFrames(splits[0]) + rest;
      assert Carries(lib, splits[0], files[0]);
      ContentRoundTrip(splits[0], rest);
      ArtifactsRoundTrip(lib, files[1..], splits[1..], tail);
    }
  }

  /** One response and how each of its contents is split. */
  datatype Reply = Reply(preamble: Preamble, report: ExecutionReport,
                         stdout: seq<bytes>, stderr: seq<bytes>, artifacts: seq<seq<bytes>>)

  ghost predicate ReplyLegal(lib: Library, codec: Codec, reply: Reply)
  {
    var files := reply.report.artifacts.Files();
    && PreambleValid(reply.preamble) && reply.preamble.outcome == ExecutionOutcome && ReportValid(lib, reply.report)
    && |codec.encodePreamble(reply.preamble)| <= MAX_PREAMBLE_BYTES
    && |codec.encodeReport(reply.report)| <= MAX_REPORT_BYTES
    && LegalChunks(reply.stdout) && |Concat(reply.stdout)| == reply.report.stdout.retainedBytes
    && Digest(lib, Concat(reply.stdout)) == reply.preamble.stdoutRetainedSha256
    && LegalChunks(reply.stderr) && |Concat(reply.stderr)| == reply.report.stderr.retainedBytes
    && Digest(lib, Concat(reply.stderr)) == reply.preamble.stderrRetainedSha256
    && AllLegal(reply.artifacts) && |reply.artifacts| == |files|
    && forall k :: 0 <= k < |files| ==> Carries(lib, reply.artifacts[k], files[k])
  }

  ghost function ReplyBytes(lib: Library, codec: Codec, reply: Reply): bytes
    requires ReplyLegal(lib, codec, reply)
  {
    FrameBytes(codec.encodePreamble(reply.preamble)) + (FrameBytes(codec.encodeReport(reply.report)) +
    (ChunkFrames(reply.stdout) + (ChunkFrames(reply.stderr) + ArtifactFrames(reply.artifacts))))
  }

  ghost function Content(reply: Reply): Delivery
  {
    Delivery(reply.report, Concat(reply.stdout), Concat(reply.stderr),
             Contents(reply.artifacts))
  }

  lemma BodyRoundTrip(lib: Library, codec: Codec, reply: Reply, tail: bytes)
    requires ReplyLegal(lib, codec, reply)
    ensures ReadBody(lib,
                     ChunkFrames(reply.stdout) + (ChunkFrames(reply.stderr) + ArtifactFrames(reply.artifacts)) + tail,
                     reply.preamble, reply.report) == Done(Content(reply), tail)
  {
    hide ReadContent, ReadRetained, ChunkFrames, ArtifactFrames, ReadArtifacts, PreambleValid, Digest, Concat, Carries;
    var artifacts := ArtifactFrames(reply.artifacts) + tail;
    var stderr := ChunkFrames(reply.stderr) + artifacts;
    assert ChunkFrames(reply.stdout) + (ChunkFrames(reply.stderr) + ArtifactFrames(reply.artifacts)) + tail
        == ChunkFrames(reply.stdout) + stderr;
    RetainedRoundTrip(lib, reply.stdout, reply.report.stdout, reply.preamble.stdoutRetainedSha256, stderr);
    RetainedRoundTrip(lib, reply.stderr, reply.report.stderr, reply.preamble.stderrRetainedSha256, artifacts);
    ArtifactsRoundTrip(lib, reply.report.artifacts.Files(), reply.artifacts, tail);
  }

  lemma RetainedRoundTrip(lib: Library, chunks: seq<bytes>, metadata: OutputMetadata, sha256: string, tail: bytes)
    requires LegalChunks(chunks) && OutputMetadataValid(metadata)
    requires |Concat(chunks)| == metadata.retainedBytes && Digest(lib, Concat(chunks)) == sha256
    ensures ReadRetained(lib, ChunkFrames(chunks) + tail, metadata.retainedBytes, sha256) == Done(Concat(chunks), tail)
  {
    hide ReadContent, ChunkFrames, Digest, Concat, LowerHex;
    ContentRoundTrip(chunks, tail);
  }

  /** Reading back a response gives exactly what it carries, however each content was split. */
  lemma ReplyRoundTrip(lib: Library, codec: Codec, reply: Reply, tail: bytes)
    requires Faithful(lib, codec) && ReplyLegal(lib, codec, reply)
    ensures ReadReply(lib, codec, ReplyBytes(lib, codec, reply) + tail) == Done(Content(reply), tail)
  {
    hide ReportValid, ReadBody, LegalChunks, ChunkFrames, ArtifactFrames, Concat, Digest;
    var preamble, report := codec.encodePreamble(reply.preamble), codec.encodeReport(reply.report);
    var body := ChunkFrames(reply.stdout) + (ChunkFrames(reply.stderr) + ArtifactFrames(reply.artifacts)) + tail;
    assert ReplyBytes(lib, codec, reply) + tail == FrameBytes(preamble) + (FrameBytes(report) + body);
    FrameRoundTrip(preamble, FrameBytes(report) + body, MAX_PREAMBLE_BYTES);
    FrameRoundTrip(report, body, MAX_REPORT_BYTES);
    BodyRoundTrip(lib, codec, reply, tail);
  }

  // ----- The writer -----

  method WriteBytes(writer: ByteWriter, content: bytes) returns (ok: bool)
    modifies writer
    ensures ok ==> writer.written == old(writer.written) + ChunkFrames(Chunked(content))
    ensures !writer.faulty ==> ok
  {
    var remaining := content;
    while remaining != []
      invariant writer.written + ChunkFrames(Chunked(remaining)) == old(writer.written) + ChunkFrames(Chunked(content))
    {
      var size := if |remaining| > MAX_DATA_CHUNK_BYTES then MAX_DATA_CHUNK_BYTES else |remaining|;
      FirstChunk(remaining, size);
      ghost var before := writer.written;
      ok := writer.Write(remaining[..size], MAX_DATA_CHUNK_BYTES);
      if !ok { return; }
      assert before + (FrameBytes(remaining[..size]) + ChunkFrames(Chunked(remaining[size..])))
          == before + FrameBytes(remaining[..size]) + ChunkFrames(Chunked(remaining[size..]));
      remaining := remaining[size..];
    }
    ok := true;
  }

  lemma FirstChunk(content: bytes, size: nat)
    requires content != [] && size == if |content| > MAX_DATA_CHUNK_BYTES then MAX_DATA_CHUNK_BYTES else |content|
    ensures ChunkFrames(Chunked(content)) == FrameBytes(content[..size]) + ChunkFrames(Chunked(content[size..]))
  {
    hide FrameBytes;
    if size == |content| {
      assert content[..size] == content && Chunked(content) == [content];
      assert ChunkFrames([content]) == FrameBytes(content) + ChunkFrames([]);
    } else {
      var chunks := Chunked(content);
      assert chunks[1..] == Chunked(content[size..]);
    }
  }

  /** writeArtifact: the bundle's content goes out only if it has the declared size and digest. */
  method WriteArtifact(lib: Library, writer: ByteWriter, bundle: ArtifactBundle, file: ArtifactFile)
    returns (ok: bool, ghost content: bytes)
    requires Lawful(lib) && 0 <= file.sizeBytes
    modifies writer, bundle`handed
    ensures ok ==>
              && var key := BundleKey(file.group, file.path);
              && key in bundle.contents && content == bundle.contents[key]
              && Carries(lib, Chunked(content), file) && Concat(Chunked(content)) == content
              && writer.written == old(writer.written) + ChunkFrames(Chunked(content))
    ensures bundle.handed <= old(bundle.handed) + {BundleKey(file.group, file.path)}
    ensures !writer.faulty && !bundle.closed && BundleKey(file.group, file.path) !in old(bundle.handed) ==>
              Holds(lib, bundle.contents, file) ==> ok
  {
    content := [];
    var source := bundle.Open(file.group, file.path);
    if source.None? { return false, []; }
    content := source.value;
    ChunkedConcat(content);
    ok := StreamContent(lib, writer, source.value, file);
  }

  /** The copy loop of writeArtifact over an opened content. */
  method StreamContent(lib: Library, writer: ByteWriter, content: bytes, file: ArtifactFile) returns (ok: bool)
    requires Lawful(lib) && 0 <= file.sizeBytes
    modifies writer
    ensures ok ==> |content| == file.sizeBytes && Digest(lib, content) == file.sha256
    ensures ok ==> writer.written == old(writer.written) + ChunkFrames(Chunked(content))
    ensures !writer.faulty && |content| == file.sizeBytes && Digest(lib, content) == file.sha256 ==> ok
  {
    hide ChunkFrames, Chunked;
    var reader := content;
    ghost var body := if |content| >= file.sizeBytes then content[..file.sizeBytes] else [];
    var hasher := lib.hashStart;
    var remaining := file.sizeBytes;
    ghost var offset := 0;
    assert content[..0] == [] && body[0..] == body;
    while remaining > 0
      invariant 0 <= remaining == file.sizeBytes - offset && 0 <= offset <= |content| && reader == content[offset..]
      invariant hasher == lib.hashAbsorb(lib.hashStart, content[..offset])
      invariant |content| >= file.sizeBytes ==>
                  writer.written + ChunkFrames(Chunked(body[offset..])) ==
                      old(writer.written) + ChunkFrames(Chunked(body))
    {
      var want := if remaining < MAX_DATA_CHUNK_BYTES then remaining else MAX_DATA_CHUNK_BYTES;
      if |reader| < want { return false; }
      var chunk := reader[..want];
      assert AbsorbsInParts(lib, lib.hashStart, content[..offset], chunk);
      assert content[..offset] + chunk == content[..offset + want];
      hasher := lib.hashAbsorb(hasher, chunk);
      ghost var before := writer.written;
      ok := writer.Write(chunk, MAX_DATA_CHUNK_BYTES);
      if !ok { return; }
      if |content| >= file.sizeBytes {
        assert chunk == body[offset..][..want] by {
          assert content[offset..][..want] == content[offset..offset + want] == body[offset..offset + want];
        }
        NextChunk(body[offset..], chunk, want, before);
        assert body[offset..][want..] == body[offset + want..];
      }
      offset := offset + want;
      reader := reader[want..];
      remaining := remaining - want;
    }
    if reader != [] { return false; }
    assert content[..offset] == content && body == content;
    NoChunkFrames();
    ok := lib.hashSum(hasher) == file.sha256;
  }

  lemma NoChunkFrames()
    ensures ChunkFrames(Chunked([])) == []
  {
  }

  lemma NextChunk(body: bytes, chunk: bytes, want: nat, before: bytes)
    requires 0 < want == (if |body| > MAX_DATA_CHUNK_BYTES then MAX_DATA_CHUNK_BYTES else |body|)
    requires chunk == body[..want]
    ensures before + FrameBytes(chunk) + ChunkFrames(Chunked(body[want..])) == before + ChunkFrames(Chunked(body))
  {
    FirstChunk(body, want);
  }

  /** The bundle holds the file's content, of the declared size and digest. */
  ghost predicate Holds(lib: Library, contents: map<string, bytes>, file: ArtifactFile)
  {
    var key := BundleKey(file.group, file.path);
    key in contents && |contents[key]| == file.sizeBytes && Digest(lib, contents[key]) == file.sha256
  }

  /** The preamble WriteExecution announces its retained output with. */
  function ExecutionPreamble(lib: Library, output: Output): Preamble
  {
    Preamble(1, ExecutionOutcome, NoFailure, Digest(lib, output.stdout), Digest(lib, output.stderr))
  }

  /** The artifact part: one content after the other, in manifest order. */
  method WriteArtifacts(lib: Library, writer: ByteWriter, bundle: ArtifactBundle, files: seq<ArtifactFile>)
    returns (ok: bool, ghost splits: seq<seq<bytes>>)
    requires Lawful(lib) && FilesValid(lib, files)
    modifies writer, bundle`handed
    ensures ok ==>
              && AllLegal(splits) && |splits| == |files|
              && writer.written == old(writer.written) + ArtifactFrames(splits)
              && forall k :: 0 <= k < |files| ==>
                   && Carries(lib, splits[k], files[k]) && Holds(lib, bundle.contents, files[k])
                   && Concat(splits[k]) == bundle.contents[BundleKey(files[k].group, files[k].path)]
    ensures !writer.faulty && !bundle.closed && old(bundle.handed) == {} ==>
              (forall k :: 0 <= k < |files| ==> Holds(lib, bundle.contents, files[k])) ==> ok
  {
    hide FilePathValid, ChunkFrames, Concat, Chunked, IsGroup, ArtifactFrames, FilesValid, ArtifactFileValid,
         LegalChunks, Digest;
    NoArtifactFrames();
    splits := [];
    for i := 0 to |files|
      invariant AllLegal(splits) && |splits| == i && bundle.closed == old(bundle.closed)
      invariant writer.written == old(writer.written) + ArtifactFrames(splits)
      invariant forall k :: 0 <= k < i ==>
                  && Carries(lib, splits[k], files[k]) && Holds(lib, bundle.contents, files[k])
                  && Concat(splits[k]) == bundle.contents[BundleKey(files[k].group, files[k].path)]
      invariant bundle.handed <= old(bundle.handed) + set k | 0 <= k < i :: BundleKey(files[k].group, files[k].path)
    {
      NotHandedYet(lib, files, i);
      SizeKnown(lib, files, i);
      ghost var content: bytes;
      ok, content := WriteArtifact(lib, writer, bundle, files[i]);
      if !ok { return; }
      ArtifactFramesAppend(splits, Chunked(content));
      splits := splits + [Chunked(content)];
    }
    ok := true;
  }

  lemma SizeKnown(lib: Library, files: seq<ArtifactFile>, i: nat)
    requires FilesValid(lib, files) && i < |files|
    ensures 0 <= files[i].sizeBytes
  {
    hide FilePathValid;
    assert ArtifactFileValid(lib, files[i]);
  }

  lemma NotHandedYet(lib: Library, files: seq<ArtifactFile>, i: nat)
    requires FilesValid(lib, files) && i < |files|
    ensures BundleKey(files[i].group, files[i].path) !in set k | 0 <= k < i :: BundleKey(files[k].group, files[k].path)
  {
    hide FilePathValid;
    assert forall k :: 0 <= k <= i ==> ArtifactFileValid(lib, files[k]);
    SeenFile(files, i, files[i]);
  }

  lemma {:induction false} ArtifactFramesAppend(splits: seq<seq<bytes>>, last: seq<bytes>)
    requires AllLegal(splits) && LegalChunks(last)
    ensures AllLegal(splits + [last]) && ArtifactFrames(splits + [last]) == ArtifactFrames(splits) + ChunkFrames(last)
  {
    hide ChunkFrames, LegalChunks;
    if splits == [] {
      assert (splits + [last])[1..] == [];
    } else {
      ArtifactFramesAppend(splits[1..], last);
      assert (splits + [last])[1..] == splits[1..] + [last];
    }
  }

  /** Every content the writer must send is at hand, and both records fit their frames. */
  ghost predicate Sendable(lib: Library, codec: Codec, output: Output)
    reads if output.bundle != null then {output.bundle} else {}
  {
    && OutputValid(lib, output)
    && |codec.encodePreamble(ExecutionPreamble(lib, output))| <= MAX_PREAMBLE_BYTES
    && |codec.encodeReport(output.report)| <= MAX_REPORT_BYTES
    && (output.bundle != null ==>
          && !output.bundle.closed && output.bundle.handed == {}
          && forall k :: 0 <= k < |output.report.artifacts.Files()| ==>
               Holds(lib, output.bundle.contents, output.report.artifacts.Files()[k]))
  }

  /** The reply carries the output: its report, its retained streams, its bundle's contents. */
  ghost predicate Conveys(reply: Reply, output: Output)
  {
    var files := reply.report.artifacts.Files();
    && reply.report == output.report && Concat(reply.stdout) == output.stdout && Concat(reply.stderr) == output.stderr
    && |reply.artifacts| == |files|
    && (output.bundle == null ==> files == [])
    && (output.bundle != null ==>
          forall k :: 0 <= k < |files| ==>
            && BundleKey(files[k].group, files[k].path) in output.bundle.contents
            && Concat(reply.artifacts[k]) == output.bundle.contents[BundleKey(files[k].group, files[k].path)])
  }

  /** WriteExecution: what it reports as sent is one legal reply conveying the output; the bundle is
      closed on every path; and nothing but the transport can stop a sendable output. */
  method WriteExecution(lib: Library, codec: Codec, writer: ByteWriter, output: Output)
    returns (ok: bool, ghost reply: Reply)
    requires Lawful(lib) && Faithful(lib, codec)
    modifies writer, if output.bundle != null then {output.bundle} else {}
    ensures output.bundle != null ==> output.bundle.closed
    ensures ok ==>
              && ReplyLegal(lib, codec, reply) && Conveys(reply, output)
              && writer.written == old(writer.written) + ReplyBytes(lib, codec, reply)
    ensures !writer.faulty && old(Sendable(lib, codec, output)) ==> ok
  {
    hide FilePathValid, ReportHeaderValid, OmissionsValid, FilesValid, ChunkFrames, ArtifactFrames, Concat, Chunked,
         AbsorbsInParts;
    reply := Reply(ExecutionPreamble(lib, output), output.report, [], [], []);
    ok, reply := StreamExecution(lib, codec, writer, output);
    if output.bundle != null { output.bundle.Close(); }
  }

  method ValidateOutput(lib: Library, output: Output) returns (ok: bool)
    ensures ok <==> OutputValid(lib, output)
  {
    ok := ValidateExecutionReport(lib, output.report);
    if !ok { return; }
    var report := output.report;
    if |output.stdout| != report.stdout.retainedBytes || |output.stderr| != report.stderr.retainedBytes {
      return false;
    }
    if !report.stdout.truncated && Digest(lib, output.stdout) != report.stdout.sha256 { return false; }
    if !report.stderr.truncated && Digest(lib, output.stderr) != report.stderr.sha256 { return false; }
    ok := (|report.artifacts.Files()| == 0) == (output.bundle == null);
  }

  /** The body of WriteExecution, without the deferred close. */
  method StreamExecution(lib: Library, codec: Codec, writer: ByteWriter, output: Output)
    returns (ok: bool, ghost reply: Reply)
    requires Lawful(lib) && Faithful(lib, codec)
    modifies writer, if output.bundle != null then {output.bundle} else {}
    ensures ok ==>
              && ReplyLegal(lib, codec, reply) && Conveys(reply, output)
              && writer.written == old(writer.written) + ReplyBytes(lib, codec, reply)
    ensures !writer.faulty && old(Sendable(lib, codec, output)) ==> ok
  {
    hide FilePathValid, ReportHeaderValid, OmissionsValid, FilesValid, ChunkFrames, ArtifactFrames, Concat, Chunked,
         AbsorbsInParts;
    var preamble := ExecutionPreamble(lib, output);
    reply := Reply(preamble, output.report, Chunked(output.stdout), Chunked(output.stderr), []);
    ok := ValidateOutput(lib, output);
    if !ok { return; }
    var encodedPreamble, encodedReport := codec.encodePreamble(preamble), codec.encodeReport(output.report);
    if |encodedPreamble| > MAX_PREAMBLE_BYTES || |encodedReport| > MAX_REPORT_BYTES { return false, reply; }
    ghost var start := writer.written;
    ok := writer.Write(encodedPreamble, MAX_PREAMBLE_BYTES);
    if !ok { return; }
    ok := writer.Write(encodedReport, MAX_REPORT_BYTES);
    if !ok { return; }
    ok := WriteBytes(writer, output.stdout);
    if !ok { return; }
    ok := WriteBytes(writer, output.stderr);
    if !ok { return; }
    ChunkedConcat(output.stdout);
    ChunkedConcat(output.stderr);
    ghost var splits: seq<seq<bytes>> := [];
    assert ManifestValid(lib, output.report.artifacts);
    if output.bundle != null {
      ok, splits := WriteArtifacts(lib, writer, output.bundle, output.report.artifacts.Files());
      if !ok { return; }
    }
    reply := reply.(artifacts := splits);
    assert writer.written == start + ReplyBytes(lib, codec, reply) by {
      NoArtifactFrames();
      Regroup(start, FrameBytes(encodedPreamble), FrameBytes(encodedReport), ChunkFrames(reply.stdout),
              ChunkFrames(reply.stderr), ArtifactFrames(reply.artifacts));
    }
  }

  lemma NoArtifactFrames()
    ensures ArtifactFrames([]) == []
  {
  }

  lemma Regroup(start: bytes, a: bytes, b: bytes, c: bytes, d: bytes, e: bytes)
    ensures start + a + b + c + d + e == start + (a + (b + (c + (d + e))))
  {
    assert start + a + b + c + d + e == start + a + (b + c + d + e);
  }

  function RejectionPreamble(failure: Failure): Preamble { Preamble(1, RejectedOutcome, failure, "", "") }

  method WriteRejection(codec: Codec, writer: ByteWriter, failure: Failure) returns (ok: bool)
    modifies writer
    ensures ok ==>
              && failure != NoFailure && failure != UnsupportedFailure
              && |codec.encodePreamble(RejectionPreamble(failure))| <= MAX_PREAMBLE_BYTES
              && writer.written == old(writer.written) + FrameBytes(codec.encodePreamble(RejectionPreamble(failure)))
    ensures !writer.faulty && failure != NoFailure && failure != UnsupportedFailure ==>
              0 < |codec.encodePreamble(RejectionPreamble(failure))| <= MAX_PREAMBLE_BYTES ==> ok
  {
    var preamble := RejectionPreamble(failure);
    if failure == NoFailure || !PreambleValid(preamble) { return false; }
    var encoded := codec.encodePreamble(preamble);
    if |encoded| > MAX_PREAMBLE_BYTES { return false; }
    ok := writer.Write(encoded, MAX_PREAMBLE_BYTES);
  }

  /** A rejection reads back as that failure and as nothing else. */
  lemma RejectionRoundTrip(lib: Library, codec: Codec, failure: Failure, tail: bytes)
    requires Faithful(lib, codec) && failure != NoFailure && failure != UnsupportedFailure
    requires |codec.encodePreamble(RejectionPreamble(failure))| <= MAX_PREAMBLE_BYTES
    ensures ReadReply(lib, codec, FrameBytes(codec.encodePreamble(RejectionPreamble(failure))) + tail) ==
            Done(Rejection(failure), tail)
  {
    hide ReadReport;
    assert PreambleValid(RejectionPreamble(failure));
    FrameRoundTrip(codec.encodePreamble(RejectionPreamble(failure)), tail, MAX_PREAMBLE_BYTES);
  }
}
