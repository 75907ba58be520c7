/** internal/brokerwire/read.go and internal/controlclient: the client's half of an exchange, from the first
    response byte to the published tree. */
module ControlClient {
  import opened Protocol
  import opened IpcFrame
  import opened BrokerWire
  import opened ControlResponse
  import opened OwnedTree

  // ----- Contents -----

  lemma PrependNothing(parse: Parse<bytes>)
    ensures Prepend([], parse) == parse
  {
    assert parse.Done? ==> [] + parse.value == parse.value;
  }

  lemma PrependTwice(a: bytes, b: bytes, parse: Parse<bytes>)
    ensures Prepend(a, Prepend(b, parse)) == Prepend(a + b, parse)
  {
    if parse.Done? {
      assert a + (b + parse.value) == a + b + parse.value;
    }
  }

  /** readBytes */
  method ReadBytes(reader: ByteReader, size: int) returns (content: Option<bytes>)
    modifies reader
    ensures content.Some? <==> 0 <= size <= MAX_OUTPUT_BYTES && ReadContent(old(reader.unread), size).Done?
    ensures content.Some? ==> ReadContent(old(reader.unread), size) == Done(content.value, reader.unread)
  {
    if size < 0 || size > MAX_OUTPUT_BYTES { return None; }
    var buffer: bytes := [];
    PrependNothing(ReadContent(reader.unread, size));
    while |buffer| < size
      invariant |buffer| <= size
      invariant ReadContent(old(reader.unread), size) == Prepend(buffer, ReadContent(reader.unread, size - |buffer|))
      decreases size - |buffer|
    {
      ghost var stream := reader.unread;
      var chunk := reader.Read(MAX_DATA_CHUNK_BYTES);
      if chunk.None? || |chunk.value| > size - |buffer| { return None; }
      PrependTwice(buffer, chunk.value, ReadContent(reader.unread, size - |buffer| - |chunk.value|));
      buffer := buffer + chunk.value;
    }
    assert buffer + [] == buffer;
    content := Some(buffer);
  }

  /** The chunk loop of readArtifact, into an open writer. */
  method CopyArtifact(lib: Library, reader: ByteReader, writer: ArtifactWriter, size: int)
    returns (ok: bool, digest: string, ghost content: bytes)
    requires Lawful(lib) && 0 <= size
    requires var destination := writer.transaction.destination;
             destination.Valid() && destination.Live() && writer.Placed() && !writer.closed
    modifies reader, writer.transaction.destination`staged, writer.transaction.destination.fs
    ensures writer.transaction.destination.Valid()
    ensures ok ==>
              ReadContent(old(reader.unread), size) == Done(content, reader.unread) && digest == Digest(lib, content)
    ensures ok ==> writer.transaction.destination.staged
                   == WithContent(old(writer.transaction.destination.staged), writer.index, content)
    ensures !writer.transaction.destination.fs.faulty && ReadContent(old(reader.unread), size).Done? ==> ok
  {
    hide Tracks, Outside, Lean;
    content := [];
    var hasher := lib.hashStart;
    var remaining := size;
    PrependNothing(ReadContent(reader.unread, size));
    NoContent(writer.transaction.destination.staged, writer.index);
    while remaining > 0
      invariant 0 <= remaining == size - |content|
      invariant hasher == lib.hashAbsorb(lib.hashStart, content)
      invariant ReadContent(old(reader.unread), size) == Prepend(content, ReadContent(reader.unread, remaining))
      invariant writer.transaction.destination.Valid() && writer.Placed()
      invariant writer.transaction.destination.staged
                == WithContent(old(writer.transaction.destination.staged), writer.index, content)
    {
      ghost var stream := reader.unread;
      var chunk := reader.Read(MAX_DATA_CHUNK_BYTES);
      if chunk.None? || |chunk.value| > remaining { return false, "", content; }
      assert AbsorbsInParts(lib, lib.hashStart, content, chunk.value);
      hasher := lib.hashAbsorb(hasher, chunk.value);
      var written := writer.WriteAll(chunk.value);
      if !written { return false, "", content; }
      PrependTwice(content, chunk.value, ReadContent(reader.unread, remaining - |chunk.value|));
      MoreContent(old(writer.transaction.destination.staged), writer.index, content, chunk.value);
      content := content + chunk.value;
      remaining := remaining - |chunk.value|;
    }
    assert content + [] == content;
    ok, digest := true, lib.hashSum(hasher);
  }

  /** readArtifact: one artifact into the transaction; the writer is closed on every path. */
  method ReadArtifact(lib: Library, reader: ByteReader, transaction: ArtifactTransaction, file: ArtifactFile)
    returns (ok: bool, ghost content: bytes)
    requires Lawful(lib) && 0 <= file.sizeBytes
    requires transaction.destination.Valid() && transaction.destination.Live()
    modifies reader, transaction`open, transaction`next, transaction.destination.fs
    modifies transaction.destination`ownedFiles, transaction.destination`ownedDirectories
    modifies transaction.destination`clean, transaction.destination`staged
    ensures transaction.destination.Valid()
    ensures old(!transaction.open) ==> !transaction.open
    ensures ok ==>
              && old(transaction.MayOpen(file))
              && ReadContent(old(reader.unread), file.sizeBytes) == Done(content, reader.unread)
              && Digest(lib, content) == file.sha256
              && transaction.destination.staged ==
                   old(transaction.destination.staged) + [Entry(ArtifactPlace(file), content)]
              && transaction.destination.clean == old(transaction.destination.clean)
              && transaction.next == old(transaction.next) + 1 && !transaction.open
    ensures !transaction.destination.fs.faulty && old(transaction.MayOpen(file)) &&
              Free(old(transaction.destination.fs.nodes), transaction.destination.stagingPath,
                   transaction.destination.stagingPath + ArtifactPlace(file)) ==>
                var read := ReadContent(old(reader.unread), file.sizeBytes);
                read.Done? && Digest(lib, read.value) == file.sha256 ==> ok
  {
    hide Tracks, Outside, Lean, ArtifactPlace, ReadContent;
    ghost var staged := transaction.destination.staged;
    LengthsAgree(transaction.destination);
    var writer := transaction.Open(file);
    if writer == null { return false, []; }
    PlacedAfterOpen(transaction.destination.stagingPath, ArtifactPlace(file));
    var digest: string;
    ok, digest, content := CopyArtifact(lib, reader, writer, file.sizeBytes);
    if !ok || digest != file.sha256 {
      var _ := CloseQuietly(writer);
      return false, content;
    }
    LastContent(staged, ArtifactPlace(file), content);
    ok := CloseQuietly(writer);
  }

  lemma LengthsAgree(destination: Destination)
    requires destination.Valid() && destination.Live()
    ensures |destination.staged| == |destination.ownedFiles|
  {
  }

  lemma PlacedAfterOpen(root: Path, place: Path)
    ensures root <= root + place
  {
  }

  /** Close keeps the destination valid. */
  method CloseQuietly(writer: ArtifactWriter) returns (ok: bool)
    requires writer.transaction.destination.Valid() && writer.transaction.destination.Live() && !writer.closed
    modifies writer`closed, writer.transaction`open, writer.transaction`next, writer.transaction.destination`clean
    ensures writer.transaction.destination.Valid()
    ensures writer.closed && !writer.transaction.open
    ensures writer.transaction.next == old(writer.transaction.next) + if ok then 1 else 0
    ensures ok ==> writer.transaction.destination.clean == old(writer.transaction.destination.clean)
    ensures !writer.transaction.destination.fs.faulty ==> ok
  {
    hide Tracks, Outside, Lean;
    var destination := writer.transaction.destination;
    TracksLess(destination.base, destination.fs.nodes, destination.Held(), destination.staged,
               destination.clean || !destination.fs.faulty);
    ok := writer.Close();
  }

  // ----- All artifacts -----

  ghost function PrependAll(front: seq<bytes>, parse: Parse<seq<bytes>>): Parse<seq<bytes>>
  {
    match parse
    case Done(value, rest) => Done(front + value, rest)
    case Starved => Starved
    case Denied => Denied
  }

  /** One artifact's outcome, at the head of the remaining ones. */
  lemma ReadOneMore(lib: Library, stream: bytes, files: seq<ArtifactFile>, i: nat, front: seq<bytes>, content: bytes,
                    rest: bytes)
    requires i < |files| && 0 <= files[i].sizeBytes
    requires ReadContent(stream, files[i].sizeBytes) == Done(content, rest) && Digest(lib, content) == files[i].sha256
    ensures PrependAll(front, ReadArtifacts(lib, stream, files[i..]))
         == PrependAll(front + [content], ReadArtifacts(lib, rest, files[i + 1..]))
  {
    assert files[i..][0] == files[i] && files[i..][1..] == files[i + 1..];
    var later := ReadArtifacts(lib, rest, files[i + 1..]);
    if later.Done? {
      assert front + ([content] + later.value) == front + [content] + later.value;
    }
  }

  lemma ReadNoMore(lib: Library, stream: bytes, files: seq<ArtifactFile>, front: seq<bytes>)
    ensures PrependAll(front, ReadArtifacts(lib, stream, files[|files|..])) == Done(front, stream)
    ensures files[0..] == files
    ensures PrependAll([], ReadArtifacts(lib, stream, files)) == ReadArtifacts(lib, stream, files)
  {
    var all := ReadArtifacts(lib, stream, files);
    assert all.Done? ==> [] + all.value == all.value;
    assert front + [] == front;
  }

  ghost function EntriesOf(files: seq<ArtifactFile>, contents: seq<bytes>): (entries: seq<Entry>)
    requires |contents| <= |files|
    ensures |entries| == |contents|
  {
    seq(|contents|, i requires 0 <= i < |contents| => Entry(ArtifactPlace(files[i]), contents[i]))
  }

  /** Whether every artifact of a manifest can be staged and read. */
  ghost predicate Stageable(lib: Library, files: seq<ArtifactFile>, stream: bytes)
  {
    Compatible(files) && FilesValid(lib, files) && ReadArtifacts(lib, stream, files).Done?
  }

  lemma HeadReads(lib: Library, stream: bytes, files: seq<ArtifactFile>, i: nat, front: seq<bytes>)
    requires i < |files| && PrependAll(front, ReadArtifacts(lib, stream, files[i..])).Done?
    ensures 0 <= files[i].sizeBytes
    ensures var head := ReadContent(stream, files[i].sizeBytes);
            head.Done? && Digest(lib, head.value) == files[i].sha256
  {
    assert files[i..][0] == files[i];
  }

  lemma EntriesGrow(files: seq<ArtifactFile>, contents: seq<bytes>, content: bytes)
    requires |contents| < |files|
    ensures EntriesOf(files, contents + [content])
         == EntriesOf(files, contents) + [Entry(ArtifactPlace(files[|contents|]), content)]
  {
  }

  lemma EntriesStagedFrom(files: seq<ArtifactFile>, contents: seq<bytes>)
    requires |contents| <= |files|
    ensures StagedFrom(files, EntriesOf(files, contents))
  {
  }

  /** The artifact loop of readResponse. */
  method ReceiveArtifacts(lib: Library, reader: ByteReader, transaction: ArtifactTransaction)
    returns (ok: bool, ghost contents: seq<bytes>)
    requires Lawful(lib) && forall k :: 0 <= k < |transaction.expected| ==> 0 <= transaction.expected[k].sizeBytes
    requires transaction.destination.Valid() && transaction.destination.Live() && transaction.destination.staged == []
    requires transaction.next == 0 && !transaction.open && !transaction.committed && !transaction.aborted
    modifies reader, transaction`open, transaction`next, transaction.destination.fs
    modifies transaction.destination`ownedFiles, transaction.destination`ownedDirectories
    modifies transaction.destination`clean, transaction.destination`staged
    ensures transaction.destination.Valid()
    ensures ok ==>
              && ReadArtifacts(lib, old(reader.unread), transaction.expected) == Done(contents, reader.unread)
              && |contents| == |transaction.expected|
              && transaction.destination.staged == EntriesOf(transaction.expected, contents)
              && transaction.destination.clean == old(transaction.destination.clean)
              && transaction.next == |transaction.expected| && !transaction.open
    ensures !transaction.destination.fs.faulty && old(transaction.destination.clean) ==>
              Stageable(lib, transaction.expected, old(reader.unread)) ==> ok
  {
    hide Tracks, Outside, Lean, ArtifactPlace, ReadContent, ReadArtifacts, Compatible, EntriesOf, Free;
    var files, destination := transaction.expected, transaction.destination;
    contents := [];
    ghost var stream := reader.unread;
    ReadNoMore(lib, reader.unread, files, []);
    for i := 0 to |files|
      invariant |contents| == i
      invariant destination.Valid() && destination.Live() && destination.clean == old(destination.clean)
      invariant destination.staged == EntriesOf(files, contents)
      invariant transaction.next == i && !transaction.open && !transaction.committed && !transaction.aborted
      invariant PrependAll(contents, ReadArtifacts(lib, reader.unread, files[i..])) == ReadArtifacts(lib, stream, files)
    {
      ghost var before := reader.unread;
      if !destination.fs.faulty && destination.clean && Stageable(lib, files, stream) {
        EntriesStagedFrom(files, contents);
        NextPlaceFree(destination.base, destination.fs.nodes, destination.Held(), destination.staged, files);
        HeadReads(lib, reader.unread, files, i, contents);
      }
      ghost var content: bytes;
      ok, content := ReadArtifact(lib, reader, transaction, files[i]);
      if !ok { return; }
      ReadOneMore(lib, before, files, i, contents, content, reader.unread);
      EntriesGrow(files, contents, content);
      contents := contents + [content];
    }
    ReadNoMore(lib, reader.unread, files, contents);
    ok := true;
  }

  // ----- The handshake -----

  /** A stream that holds exactly one response and its terminal marker. */
  ghost predicate CarriesResponse(lib: Library, codec: Codec, stream: bytes, delivery: Delivery)
  {
    var reply := ReadReply(lib, codec, stream);
    reply.Done? && reply.value == delivery && EndsExchange(reply.rest)
  }

  predicate EndsExchange(stream: bytes) { ReadFrame(stream, MAX_EXCHANGE_MARKER_BYTES) == Done(TERMINAL_MARKER, []) }

  /** finishClientExchange: the marker, our acknowledgement, then the clean end of the stream. */
  method FinishClientExchange(reader: ByteReader, writer: ByteWriter) returns (ok: bool)
    modifies reader, writer
    ensures ok ==> EndsExchange(old(reader.unread)) && reader.endsCleanly
    ensures ok ==> writer.written == old(writer.written) + FrameBytes(ACKNOWLEDGEMENT_MARKER)
    ensures EndsExchange(old(reader.unread)) && reader.endsCleanly && !writer.faulty ==> ok
  {
    var terminal := reader.Read(MAX_EXCHANGE_MARKER_BYTES);
    if terminal.None? || terminal.value != TERMINAL_MARKER { return false; }
    ok := writer.Write(ACKNOWLEDGEMENT_MARKER, MAX_EXCHANGE_MARKER_BYTES);
    if !ok { return; }
    ok := reader.ExpectEof();
  }

  /** finishServerExchange: the marker, then exactly the acknowledgement. */
  method FinishServerExchange(reader: ByteReader, writer: ByteWriter) returns (ok: bool)
    modifies reader, writer
    ensures ok ==> writer.written == old(writer.written) + FrameBytes(TERMINAL_MARKER)
    ensures ok ==>
              ReadFrame(old(reader.unread), MAX_EXCHANGE_MARKER_BYTES) == Done(ACKNOWLEDGEMENT_MARKER, reader.unread)
    ensures !writer.faulty && ReadFrame(old(reader.unread), MAX_EXCHANGE_MARKER_BYTES).Done? ==>
              ReadFrame(old(reader.unread), MAX_EXCHANGE_MARKER_BYTES).value == ACKNOWLEDGEMENT_MARKER ==> ok
  {
    ok := writer.Write(TERMINAL_MARKER, MAX_EXCHANGE_MARKER_BYTES);
    if !ok { return; }
    var acknowledgement := reader.Read(MAX_EXCHANGE_MARKER_BYTES);
    ok := acknowledgement.Some? && acknowledgement.value == ACKNOWLEDGEMENT_MARKER;
  }

  // ----- The response -----

  datatype Head = HeadFailed | HeadRejected(failure: Failure) | Head(response: Response)

  ghost function WithArtifacts(response: Response, parse: Parse<seq<bytes>>): Parse<Delivery>
  {
    match parse
    case Done(contents, rest) => Done(Delivery(response.report, response.stdout, response.stderr, contents), rest)
    case Starved => Starved
    case Denied => Denied
  }

  /** readResponse up to the artifacts: preamble, report and the two retained streams. */
  method ReadHead(lib: Library, codec: Codec, reader: ByteReader) returns (head: Head)
    modifies reader
    ensures head.HeadFailed? ==> !ReadReply(lib, codec, old(reader.unread)).Done?
    ensures head.HeadRejected? ==>
              ReadReply(lib, codec, old(reader.unread)) == Done(Rejection(head.failure), reader.unread)
    ensures head.Head? ==>
              && ReadReply(lib, codec, old(reader.unread))
                 == WithArtifacts(head.response,
                                  ReadArtifacts(lib, reader.unread, head.response.report.artifacts.Files()))
              && ReportValid(lib, head.response.report)
              && |head.response.stdout| == head.response.report.stdout.retainedBytes
              && |head.response.stderr| == head.response.report.stderr.retainedBytes
  {
    hide ReportValid, PreambleValid, ReadFrame, ReadContent, ReadArtifacts, Digest;
    var encodedPreamble := reader.Read(MAX_PREAMBLE_BYTES);
    if encodedPreamble.None? { return HeadFailed; }
    var preamble := codec.decodePreamble(encodedPreamble.value);
    if preamble.None? || !PreambleValid(preamble.value) { return HeadFailed; }
    if preamble.value.outcome == RejectedOutcome { return HeadRejected(preamble.value.failure); }
    var encodedReport := reader.Read(MAX_REPORT_BYTES);
    if encodedReport.None? { return HeadFailed; }
    var report := codec.decodeReport(encodedReport.value);
    if report.None? { return HeadFailed; }
    var reportOk := ValidateExecutionReport(lib, report.value);
    if !reportOk { return HeadFailed; }
    var stdout := ReadBytes(reader, report.value.stdout.retainedBytes);
    if stdout.None? || Digest(lib, stdout.value) != preamble.value.stdoutRetainedSha256 { return HeadFailed; }
    var stderr := ReadBytes(reader, report.value.stderr.retainedBytes);
    if stderr.None? || Digest(lib, stderr.value) != preamble.value.stderrRetainedSha256 { return HeadFailed; }
    head := Head(Response(report.value, stdout.value, stderr.value));
  }

  datatype Outcome = Received(response: Response) | Rejected(failure: Failure) | WireError

  /** What the destination must be before an exchange: as New left it. */
  ghost predicate Fresh(destination: Destination)
    reads destination, destination.fs
  {
    && destination.Valid() && destination.Live() && destination.clean && destination.staged == []
    && !destination.artifactBegun && !destination.artifactsCommitted
    && destination.finalPath != [] && destination.finalPath !in destination.base
  }

  /** The destination holds a received response's artifacts, all committed. */
  ghost predicate Staged(destination: Destination, response: Response, contents: seq<bytes>)
    reads destination
  {
    var files := response.report.artifacts.Files();
    && destination.Live() && destination.clean && |contents| == |files|
    && destination.staged == EntriesOf(files, contents)
    && (files != [] ==> destination.artifactsCommitted)
  }

  ghost predicate ResponseStageable(delivery: Delivery)
  {
    delivery.Delivery? ==> Compatible(delivery.report.artifacts.Files())
  }

  /** ReadResponseExchange: the response, its artifacts into the sink, the handshake, and only then Commit. */
  method ReadResponse(lib: Library, codec: Codec, reader: ByteReader, writer: ByteWriter, destination: Destination)
    returns (outcome: Outcome, ghost contents: seq<bytes>)
    requires Lawful(lib) && Fresh(destination)
    modifies reader, writer, destination, destination.fs
    ensures destination.Valid() && !destination.published
    ensures destination.artifactsCommitted ==>
              && outcome.Received? && reader.endsCleanly
              && exists delivery :: CarriesResponse(lib, codec, old(reader.unread), delivery)
    ensures destination.stagingPath == old(destination.stagingPath)
    ensures destination.aborted && !destination.fs.faulty ==> destination.fs.nodes == destination.base
    ensures outcome.Received? ==>
              && CarriesResponse(lib, codec, old(reader.unread),
                   Delivery(outcome.response.report, outcome.response.stdout, outcome.response.stderr, contents))
              && reader.endsCleanly && Staged(destination, outcome.response, contents)
              && destination.Publishable(lib, outcome.response)
    ensures outcome.Rejected? ==>
              CarriesResponse(lib, codec, old(reader.unread), Rejection(outcome.failure)) && reader.endsCleanly
    ensures forall delivery: Delivery ::
              CarriesResponse(lib, codec, old(reader.unread), delivery) && reader.endsCleanly && !writer.faulty ==>
                !destination.fs.faulty && ResponseStageable(delivery) ==>
                  if delivery.Rejection? then outcome == Rejected(delivery.failure) else outcome.Received?
  {
    hide Tracks, Outside, Lean, ReadReply, ReadArtifacts, ReportValid, EndsExchange, Compatible;
    contents := [];
    var head := ReadHead(lib, codec, reader);
    if head.HeadFailed? { return WireError, contents; }
    if head.HeadRejected? {
      var rejectionFinished := FinishClientExchange(reader, writer);
      return if rejectionFinished then Rejected(head.failure) else WireError, contents;
    }
    var response := head.response;
    var files := response.report.artifacts.Files();
    if files == [] {
      ReadNoMore(lib, reader.unread, files, []);
      var emptyFinished := FinishClientExchange(reader, writer);
      return if emptyFinished then Received(response) else WireError, contents;
    }
    var ok: bool;
    ok, contents := ReceiveAndCommit(lib, reader, writer, destination, response);
    if ok {
      assert CarriesResponse(lib, codec, old(reader.unread),
                             Delivery(response.report, response.stdout, response.stderr, contents));
    }
    outcome := if ok then Received(response) else WireError;
  }

  /** The part of readResponse with a transaction: it commits, or it aborts the destination. */
  method ReceiveAndCommit(lib: Library, reader: ByteReader, writer: ByteWriter, destination: Destination,
                          response: Response)
    returns (ok: bool, ghost contents: seq<bytes>)
    requires Lawful(lib) && Fresh(destination) && ReportValid(lib, response.report)
    requires response.report.artifacts.Files() != []
    modifies reader, writer, destination, destination.fs
    ensures destination.Valid() && !destination.published
    ensures destination.artifactsCommitted <==> ok
    ensures ok ==>
              && var read := ReadArtifacts(lib, old(reader.unread), response.report.artifacts.Files());
              && read.Done? && read.value == contents && EndsExchange(read.rest) && reader.endsCleanly
              && Staged(destination, response, contents)
    ensures destination.stagingPath == old(destination.stagingPath)
    ensures destination.aborted && !destination.fs.faulty ==> destination.fs.nodes == destination.base
    ensures !destination.fs.faulty && !writer.faulty && reader.endsCleanly ==>
              var files := response.report.artifacts.Files();
              var read := ReadArtifacts(lib, old(reader.unread), files);
              Compatible(files) && read.Done? && EndsExchange(read.rest) ==> ok
  {
    hide Tracks, Outside, Lean, ReadArtifacts, EndsExchange, Compatible, FilesValid, OmissionsValid,
         ReportHeaderValid, EntriesOf, FrameBytes, Beside, ManifestValid;
    contents := [];
    var files := response.report.artifacts.Files();
    SizesKnown(lib, response.report);
    var transaction := destination.Begin(lib, files);
    if transaction == null { return false, contents; }
    ok, contents := ReceiveArtifacts(lib, reader, transaction);
    if ok { ok := FinishClientExchange(reader, writer); }
    if ok { ok := transaction.Commit(); }
    if !ok { var _ := transaction.Abort(); }
  }

  lemma SizesKnown(lib: Library, report: ExecutionReport)
    requires ReportValid(lib, report)
    ensures var files := report.artifacts.Files();
            && FilesValid(lib, files) && (forall k :: 0 <= k < |files| ==> 0 <= files[k].sizeBytes)
            && (files != [] ==> ManifestValid(lib, ArtifactManifest(Complete, Some(files), Some([]))))
  {
    hide FilePathValid, PatternValid, ReportHeaderValid;
  }

  // ----- The exchange -----

  /** What surrounds one exchange: the encoded request (if it could be encoded), the caller's context, the
      dialled connection and how closing it turns out. */
  datatype Connection = Connection(
    envelope: Option<bytes>, cancelled: bool, dialled: bool, reader: ByteReader, writer: ByteWriter, closeFails: bool)

  const MAX_ENVELOPE_BYTES := (128 + 16) * 1024

  /** A delivery that answers this request and this attempt. */
  ghost predicate Answers(lib: Library, accepted: AcceptedRequest, attemptId: string, delivery: Delivery)
  {
    && delivery.Delivery? && ReportValid(lib, delivery.report) && BindingHolds(accepted, delivery.report)
    && delivery.report.attemptId == attemptId
  }

  /** The published tree: report, stdout, stderr and every artifact of the delivery, and nothing else. */
  ghost predicate PublishedDelivery(codec: Codec, destination: Destination, delivery: Delivery)
    requires delivery.Delivery?
    reads destination, destination.fs
  {
    var files := delivery.report.artifacts.Files();
    && |delivery.artifacts| == |files|
    && PublishedAs(destination.base, destination.fs.nodes, destination.finalPath,
                   EntriesOf(files, delivery.artifacts)
                   + MetadataEntries(codec, Response(delivery.report, delivery.stdout, delivery.stderr)))
  }

  /** Nothing stands in the way of the rename. */
  ghost predicate FinalReachable(destination: Destination)
    reads destination
  {
    destination.finalPath != [] && DirectoryChain(destination.base, Parent(destination.finalPath))
    && destination.stagingPath != destination.finalPath
  }

  /** Exchange: either the whole verified response is published, or everything staged is aborted. */
  method Exchange(lib: Library, codec: Codec, connection: Connection, accepted: AcceptedRequest, attemptId: string,
                  destination: Destination) returns (ok: bool, ghost delivery: Delivery)
    requires Lawful(lib) && Fresh(destination)
    requires connection.envelope.Some? ==> AcceptedValid(lib, accepted)
    modifies connection.reader, connection.writer, destination, destination.fs
    ensures ok <==> destination.published
    ensures destination.artifactsCommitted ==>
              && connection.reader.endsCleanly
              && exists received :: CarriesResponse(lib, codec, old(connection.reader.unread), received)
    ensures ok ==>
              && CarriesResponse(lib, codec, old(connection.reader.unread), delivery) && connection.reader.endsCleanly
              && Answers(lib, accepted, attemptId, delivery) && ResponseStageable(delivery)
              && PublishedDelivery(codec, destination, delivery)
    ensures !ok ==>
              && destination.aborted && Outside(destination.base, destination.fs.nodes, destination.stagingPath)
              && (destination.stagingPath != destination.finalPath ==> destination.finalPath !in destination.fs.nodes)
    ensures !ok && !destination.fs.faulty ==> destination.fs.nodes == destination.base
    ensures SmoothConnection(connection) && !destination.fs.faulty && old(FinalReachable(destination)) ==>
              forall sent: Delivery ::
                CarriesResponse(lib, codec, old(connection.reader.unread), sent) ==>
                  Answers(lib, accepted, attemptId, sent) && ResponseStageable(sent) ==> ok
  {
    hide Tracks, Outside, Lean, PublishedDelivery, CarriesResponse, ReportValid, Compatible, BindingHolds,
         DirectoryChain, Beside;
    ok, delivery := Attempt(lib, codec, connection, accepted, attemptId, destination);
    if !ok {
      var _ := destination.Abort();
      FinalAbsent(destination);
    }
  }

  lemma FinalAbsent(destination: Destination)
    requires destination.Valid() && !destination.published && destination.finalPath !in destination.base
    ensures destination.stagingPath != destination.finalPath ==> destination.finalPath !in destination.fs.nodes
  {
    if destination.stagingPath != destination.finalPath {
      SiblingsApart(destination.stagingPath, destination.finalPath);
    }
  }

  /** Exchange without its deferred abort. */
  method Attempt(lib: Library, codec: Codec, connection: Connection, accepted: AcceptedRequest, attemptId: string,
                 destination: Destination) returns (ok: bool, ghost delivery: Delivery)
    requires Lawful(lib) && Fresh(destination)
    requires connection.envelope.Some? ==> AcceptedValid(lib, accepted)
    modifies connection.reader, connection.writer, destination, destination.fs
    ensures destination.Valid() && (ok <==> destination.published)
    ensures destination.artifactsCommitted ==>
              && connection.reader.endsCleanly
              && exists received :: CarriesResponse(lib, codec, old(connection.reader.unread), received)
    ensures destination.aborted && !destination.fs.faulty ==> destination.fs.nodes == destination.base
    ensures ok ==>
              && CarriesResponse(lib, codec, old(connection.reader.unread), delivery) && connection.reader.endsCleanly
              && Answers(lib, accepted, attemptId, delivery) && ResponseStageable(delivery)
              && PublishedDelivery(codec, destination, delivery)
              && !destination.aborted
    ensures SmoothConnection(connection) && !destination.fs.faulty && old(FinalReachable(destination)) ==>
              forall sent: Delivery ::
                CarriesResponse(lib, codec, old(connection.reader.unread), sent) ==>
                  Answers(lib, accepted, attemptId, sent) && ResponseStageable(sent) ==> ok
  {
    hide Tracks, Outside, Lean, PublishedAs, CarriesResponse, ReportValid, Compatible, BindingHolds, DirectoryChain,
         EntriesOf;
    delivery := Rejection(NoFailure);
    if connection.envelope.None? || connection.cancelled || !connection.dialled { return false, delivery; }
    ok := connection.writer.Write(connection.envelope.value, MAX_ENVELOPE_BYTES);
    if !ok { return; }
    var outcome: Outcome;
    ghost var contents: seq<bytes>;
    outcome, contents := ReadResponse(lib, codec, connection.reader, connection.writer, destination);
    if !outcome.Received? || connection.closeFails { return false, delivery; }
    var response := outcome.response;
    delivery := Delivery(response.report, response.stdout, response.stderr, contents);
    CarriesOne(lib, codec, old(connection.reader.unread), delivery);
    var bound := ValidateExecutionReportBinding(lib, accepted, response.report);
    if !bound || response.report.attemptId != attemptId { return false, delivery; }
    if old(FinalReachable(destination)) && !destination.fs.faulty {
      ReadyToPublish(destination, response, contents);
    }
    StagedCompatible(destination, response, contents);
    ok := destination.Publish(lib, codec, response);
  }

  /** Only compatible manifests can be staged: a file below another file would need it to be a directory. */
  lemma StagedCompatible(destination: Destination, response: Response, contents: seq<bytes>)
    requires destination.Valid() && Staged(destination, response, contents)
    ensures Compatible(response.report.artifacts.Files())
  {
    hide Lean, Owns, Closed, ArtifactPlace;
    var files := response.report.artifacts.Files();
    var root, nodes := destination.stagingPath, destination.fs.nodes;
    forall i, j | 0 <= i < |files| && 0 <= j < |files| ensures !(ArtifactPlace(files[i]) < ArtifactPlace(files[j])) {
      var upper, lower := root + ArtifactPlace(files[i]), root + ArtifactPlace(files[j]);
      assert destination.staged[i].path == ArtifactPlace(files[i])
          && destination.staged[j].path == ArtifactPlace(files[j]);
      assert nodes[upper].File? && lower in nodes;
      if upper <= lower {
        AncestorsPresent(nodes, lower, upper);
      }
      assert ArtifactPlace(files[i]) < ArtifactPlace(files[j]) ==> upper < lower;
    }
  }

  /** A stream carries at most one response. */
  lemma CarriesOne(lib: Library, codec: Codec, stream: bytes, delivery: Delivery)
    requires CarriesResponse(lib, codec, stream, delivery)
    ensures forall other :: CarriesResponse(lib, codec, stream, other) ==> other == delivery
  {
  }

  predicate SmoothConnection(connection: Connection)
  {
    && connection.envelope.Some? && 0 < |connection.envelope.value| <= MAX_ENVELOPE_BYTES && !connection.cancelled
    && connection.dialled && !connection.closeFails && !connection.writer.faulty && connection.reader.endsCleanly
  }

  /** A staged response on a sound file system has everything Publish asks for. */
  lemma ReadyToPublish(destination: Destination, response: Response, contents: seq<bytes>)
    requires destination.Valid() && Staged(destination, response, contents)
    requires FinalReachable(destination) && destination.finalPath !in destination.base
    ensures destination.MetadataFree() && destination.FinalAvailable()
  {
    hide Lean, Closed, Owns, EntriesOf;
    var files := response.report.artifacts.Files();
    EntriesStagedFrom(files, contents);
    MetadataNameFree(destination.base, destination.fs.nodes, destination.Held(), destination.staged, files,
                     REPORT_NAME);
    MetadataNameFree(destination.base, destination.fs.nodes, destination.Held(), destination.staged, files,
                     STDOUT_NAME);
    MetadataNameFree(destination.base, destination.fs.nodes, destination.Held(), destination.staged, files,
                     STDERR_NAME);
    FinalAbsent(destination);
  }

  /** What a response carried is what its manifest declares: every size and digest. */
  lemma DeliveryMatchesManifest(lib: Library, codec: Codec, stream: bytes, delivery: Delivery)
    requires CarriesResponse(lib, codec, stream, delivery) && delivery.Delivery?
    ensures |delivery.stdout| == delivery.report.stdout.retainedBytes
    ensures |delivery.stderr| == delivery.report.stderr.retainedBytes
    ensures var files := delivery.report.artifacts.Files();
            && |delivery.artifacts| == |files|
            && forall k :: 0 <= k < |files| ==>
                 |delivery.artifacts[k]| == files[k].sizeBytes && Digest(lib, delivery.artifacts[k]) == files[k].sha256
  {
    hide ReportValid, PreambleValid, ReadFrame, ReadArtifacts, ReadContent;
    forall s: bytes
      ensures ArtifactsMatch(lib, ReadArtifacts(lib, s, delivery.report.artifacts.Files()),
                             delivery.report.artifacts.Files())
    {
      ArtifactsMatchManifest(lib, s, delivery.report.artifacts.Files());
    }
  }

  ghost predicate ArtifactsMatch(lib: Library, read: Parse<seq<bytes>>, files: seq<ArtifactFile>)
  {
    read.Done? ==>
      && |read.value| == |files|
      && forall k :: 0 <= k < |files| ==>
           |read.value[k]| == files[k].sizeBytes && Digest(lib, read.value[k]) == files[k].sha256
  }

  lemma {:induction false} ArtifactsMatchManifest(lib: Library, stream: bytes, files: seq<ArtifactFile>)
    ensures ArtifactsMatch(lib, ReadArtifacts(lib, stream, files), files)
    decreases files
  {
    if files != [] && files[0].sizeBytes >= 0 {
      var content := ReadContent(stream, files[0].sizeBytes);
      if content.Done? {
        ArtifactsMatchManifest(lib, content.rest, files[1..]);
      }
    }
  }
}
