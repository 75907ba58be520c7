/** internal/platform/linux/artifact: what the collecting helper sends over its pipe, and the receiver that takes
    nothing from it on trust. */
module HelperProtocol {
  import opened Segments
  import opened ArtifactPattern
  import opened Protocol
  import opened ExecutionRun
  import opened Sorting
  import opened IpcFrame
  import opened LinuxCollector

  const MAX_PLAN_BYTES := 256 * 1024

  // ----- validateHelperPlan -----

  ghost predicate FilesPlanned(lib: Library, selections: seq<ArtifactSelection>, files: seq<HelperFile>)
  {
    && (forall k :: 0 <= k < |files| ==> HelperFileValid(lib, selections, files[k]))
    && Apart(SameHelperFile, files) && SumSizes(files) <= MAX_TOTAL_ARTIFACT_BYTES
  }

  lemma {:induction false} SumPrefix(lib: Library, selections: seq<ArtifactSelection>, files: seq<HelperFile>, i: nat)
    requires i <= |files|
    requires forall k :: 0 <= k < |files| ==> HelperFileValid(lib, selections, files[k])
    ensures SumSizes(files[..i]) <= SumSizes(files)
    decreases |files|
  {
    hide FilePathValid, FileAllowed;
    if i < |files| {
      var front := files[..|files| - 1];
      assert HelperFileValid(lib, selections, files[|files| - 1]);
      SumPrefix(lib, selections, front, i);
      assert front[..i] == files[..i];
    } else {
      assert files[..i] == files;
    }
  }

  ghost function KeysOf(files: seq<HelperFile>, i: nat): set<string>
    requires i <= |files|
  {
    set k | 0 <= k < i :: BundleKey(files[k].group, files[k].path)
  }

  /** A planned file's group is a requested one, so the seen map is keyed injectively. */
  lemma SeenHelperFile(lib: Library, selections: seq<ArtifactSelection>, files: seq<HelperFile>, i: nat)
    requires SelectionsValid(lib, selections) && i < |files|
    requires forall k :: 0 <= k <= i ==> HelperFileValid(lib, selections, files[k])
    ensures BundleKey(files[i].group, files[i].path) in KeysOf(files, i) <==>
            exists k :: 0 <= k < i && SameHelperFile(files[k], files[i])
  {
    hide FilePathValid, PatternValid;
    forall k | 0 <= k <= i ensures '\0' !in files[k].group {
      assert HelperFileValid(lib, selections, files[k]);
      PatternsOfHasGroup(selections, files[k].group);
      var j :| 0 <= j < |selections| && selections[j].name == files[k].group;
      assert SelectionValid(lib, selections[j]);
      IdentifierHasNoNul(files[k].group);
    }
    forall k | 0 <= k < i
      ensures BundleKey(files[k].group, files[k].path) == BundleKey(files[i].group, files[i].path)
              <==> SameHelperFile(files[k], files[i])
    {
      BundleKeyInjective(files[k].group, files[k].path, files[i].group, files[i].path);
    }
  }

  method ValidateHelperFiles(lib: Library, files: seq<HelperFile>, selections: seq<ArtifactSelection>,
                             groups: map<string, seq<string>>) returns (ok: bool)
    requires SelectionsValid(lib, selections)
    requires forall group :: group in groups <==> PatternsOf(selections, group).Some?
    requires forall group :: group in groups ==> groups[group] == PatternsOf(selections, group).value
    ensures ok <==> FilesPlanned(lib, selections, files)
  {
    hide FilePathValid, SelectionsValid, MatchOutcome, PatternsOf;
    var seen: set<string> := {};
    var total := 0;
    for i := 0 to |files|
      invariant forall k :: 0 <= k < i ==> HelperFileValid(lib, selections, files[k])
      invariant Apart(SameHelperFile, files[..i])
      invariant seen == KeysOf(files, i) && total == SumSizes(files[..i]) <= MAX_TOTAL_ARTIFACT_BYTES
    {
      var file := files[i];
      if !FilePathValid(lib, file.path) || file.size < 0 || file.size > MAX_ARTIFACT_FILE_BYTES { return false; }
      if file.group !in groups { return false; }
      var matched, malformed := MatchesGroup(lib, groups[file.group], file.path);
      if malformed || !matched { return false; }
      assert HelperFileValid(lib, selections, file);
      SeenHelperFile(lib, selections, files, i);
      var key := BundleKey(file.group, file.path);
      if key in seen { return false; }
      seen := seen + {key};
      total := total + file.size;
      assert files[..i + 1] == files[..i] + [file];
      assert files[..i + 1][..i] == files[..i];
      if total > MAX_TOTAL_ARTIFACT_BYTES {
        if FilesPlanned(lib, selections, files) { SumPrefix(lib, selections, files, i + 1); }
        return false;
      }
    }
    assert files[..|files|] == files;
    ok := true;
  }

  method ValidateHelperPlan(lib: Library, plan: HelperPlan, selections: seq<ArtifactSelection>) returns (ok: bool)
    requires SelectionsValid(lib, selections)
    ensures ok <==> HelperPlanValid(lib, plan, selections)
  {
    hide SelectionsValid, HelperFileValid;
    if |plan.files| > MAX_ARTIFACT_FILES || |plan.omissions| > MAX_ARTIFACT_OMISSIONS { return false; }
    var groups := PatternsByGroup(selections);
    ok := ValidateHelperFiles(lib, plan.files, selections, groups);
    if !ok { return; }
    for i := 0 to |plan.omissions|
      invariant forall k :: 0 <= k < i ==> PlannedOmissionValid(selections, plan.omissions[k])
    {
      var omission := plan.omissions[i];
      if omission.group !in groups || omission.pattern !in groups[omission.group] || omission.reason == MissingReason {
        return false;
      }
    }
  }

  function ContentOf(contents: map<string, bytes>, file: HelperFile): bytes
  {
    var key := BundleKey(file.group, file.path);
    if key in contents then contents[key] else []
  }

  /** The manifest entry and stored content of one planned file. */
  ghost predicate Delivered(lib: Library, planned: HelperFile, file: ArtifactFile, contents: map<string, bytes>)
  {
    var key := BundleKey(planned.group, planned.path);
    && file.group == planned.group && file.path == planned.path && file.sizeBytes == planned.size
    && key in contents && |contents[key]| == planned.size && file.sha256 == Digest(lib, contents[key])
  }

  function ManifestStatus(files: nat, omissions: nat): ArtifactStatus
  {
    if files == 0 then ArtifactStatus.CollectionFailed else if omissions > 0 then CompleteWithOmissions else Complete
  }

  lemma DeliveredManifest(lib: Library, selections: seq<ArtifactSelection>, plan: HelperPlan,
                          files: seq<ArtifactFile>, contents: map<string, bytes>)
    requires Lawful(lib) && SelectionsValid(lib, selections) && selections != []
    requires HelperPlanValid(lib, plan, selections) && |files| == |plan.files|
    requires forall k :: 0 <= k < |files| ==> Delivered(lib, plan.files[k], files[k], contents)
    ensures var manifest := ArtifactManifest(ManifestStatus(|files|, |plan.omissions|), Some(files),
                                             Some(plan.omissions));
            && CollectionAllowed(lib, manifest, selections)
            && FilesValid(lib, files)
            && (OmissionsValid(lib, plan.omissions) && (files == [] ==> plan.omissions != []) ==>
                ManifestValid(lib, manifest))
  {
    hide FilePathValid, PatternValid, MatchOutcome, AbsorbsInParts;
    forall k | 0 <= k < |files|
      ensures ArtifactFileValid(lib, files[k]) && FileAllowed(lib, selections, files[k].group, files[k].path)
    {
      assert HelperFileValid(lib, selections, plan.files[k]) && Delivered(lib, plan.files[k], files[k], contents);
      PatternsOfHasGroup(selections, files[k].group);
      var j :| 0 <= j < |selections| && selections[j].name == files[k].group;
      assert SelectionValid(lib, selections[j]);
    }
    forall a, b | 0 <= a < b < |files| ensures !SameFile(files[a], files[b]) {
      assert Delivered(lib, plan.files[a], files[a], contents) && Delivered(lib, plan.files[b], files[b], contents);
      assert !SameHelperFile(plan.files[a], plan.files[b]);
    }
    SameTotals(plan.files, files);
    forall k | 0 <= k < |plan.omissions|
      ensures OmissionAllowed(selections, plan.omissions[k].group, plan.omissions[k].pattern)
    {
      assert PlannedOmissionValid(selections, plan.omissions[k]);
    }
  }

  lemma {:induction false} SameTotals(planned: seq<HelperFile>, files: seq<ArtifactFile>)
    requires |planned| == |files| && forall k :: 0 <= k < |files| ==> files[k].sizeBytes == planned[k].size
    ensures TotalBytes(files) == SumSizes(planned)
  {
    if files != [] {
      SameTotals(planned[..|planned| - 1], files[..|files| - 1]);
    }
  }

  /** Delivery to a new key does not disturb earlier ones. */
  lemma DeliveredKept(lib: Library, selections: seq<ArtifactSelection>, planned: seq<HelperFile>, i: nat,
                      files: seq<ArtifactFile>, contents: map<string, bytes>, content: bytes)
    requires SelectionsValid(lib, selections) && i < |planned| && |files| == i
    requires forall k :: 0 <= k <= i ==> HelperFileValid(lib, selections, planned[k])
    requires Apart(SameHelperFile, planned)
    requires forall k :: 0 <= k < i ==> Delivered(lib, planned[k], files[k], contents)
    ensures var key := BundleKey(planned[i].group, planned[i].path);
            forall k :: 0 <= k < i ==>
              && Delivered(lib, planned[k], files[k], contents[key := content])
              && ContentOf(contents[key := content], planned[k]) == ContentOf(contents, planned[k])
  {
    hide HelperFileValid, SelectionsValid;
    SeenHelperFile(lib, selections, planned, i);
    var key := BundleKey(planned[i].group, planned[i].path);
    forall k | 0 <= k < i
      ensures Delivered(lib, planned[k], files[k], contents[key := content])
      ensures ContentOf(contents[key := content], planned[k]) == ContentOf(contents, planned[k])
    {
      assert Delivered(lib, planned[k], files[k], contents);
      assert !SameHelperFile(planned[k], planned[i]);
      assert BundleKey(planned[k].group, planned[k].path) in KeysOf(planned, i);
    }
  }

  // ----- The two ends of the pipe -----

  /** The JSON of a plan. */
  datatype PlanCodec = PlanCodec(encode: HelperPlan -> bytes, decode: bytes -> Option<HelperPlan>)

  /** Decoding undoes encoding on valid plans, and no encoding is empty. */
  ghost predicate FaithfulPlans(lib: Library, codec: PlanCodec)
  {
    && (forall plan, selections :: SelectionsValid(lib, selections) && HelperPlanValid(lib, plan, selections) ==>
          codec.decode(codec.encode(plan)) == Some(plan))
    && (forall plan :: codec.encode(plan) != [])
  }

  function Concat(pieces: seq<bytes>): bytes
  {
    if pieces == [] then [] else Concat(pieces[..|pieces| - 1]) + pieces[|pieces| - 1]
  }

  /** The content of the k-th planned file in the stream of all contents. */
  ghost predicate IsPiece(files: seq<HelperFile>, content: bytes, k: nat, piece: bytes)
    requires k < |files|
  {
    var from := SumSizes(files[..k]);
    0 <= from <= from + |piece| <= |content| && |piece| == files[k].size && content[from..from + |piece|] == piece
  }

  ghost predicate SameSizes(files: seq<HelperFile>, pieces: seq<bytes>)
  {
    |pieces| == |files| && forall k :: 0 <= k < |files| ==> |pieces[k]| == files[k].size
  }

  lemma {:induction false} PiecesOf(files: seq<HelperFile>, pieces: seq<bytes>)
    requires SameSizes(files, pieces)
    ensures |Concat(pieces)| == SumSizes(files)
    ensures forall k :: 0 <= k < |files| ==> IsPiece(files, Concat(pieces), k, pieces[k])
  {
    if files != [] {
      var n := |files| - 1;
      PiecesOf(files[..n], pieces[..n]);
      LastPiece(files, Concat(pieces[..n]), pieces[n]);
      hide IsPiece, SumSizes;
      forall k | 0 <= k < |files| ensures IsPiece(files, Concat(pieces), k, pieces[k]) {
        if k < n {
          assert IsPiece(files[..n], Concat(pieces[..n]), k, pieces[..n][k]);
          PieceKept(files, n, Concat(pieces[..n]), pieces[n], k, pieces[k]);
        }
      }
    }
  }

  lemma LastPiece(files: seq<HelperFile>, before: bytes, piece: bytes)
    requires files != [] && |piece| == files[|files| - 1].size && |before| == SumSizes(files[..|files| - 1])
    ensures |before + piece| == SumSizes(files) && IsPiece(files, before + piece, |files| - 1, piece)
  {
  }

  lemma PieceKept(files: seq<HelperFile>, n: nat, before: bytes, more: bytes, k: nat, piece: bytes)
    requires k < n <= |files| && IsPiece(files[..n], before, k, piece)
    ensures IsPiece(files, before + more, k, piece)
  {
    hide SumSizes;
    assert files[..n][..k] == files[..k];
    var from := SumSizes(files[..k]);
    assert (before + more)[from..from + |piece|] == before[from..from + |piece|];
  }

  /** writeAll, and the copying of one content. */
  method WriteAll(writer: ByteWriter, content: bytes) returns (ok: bool)
    modifies writer
    ensures ok ==> writer.written == old(writer.written) + content
    ensures !writer.faulty ==> ok
  {
    var sent := 0;
    while sent < |content|
      invariant 0 <= sent <= |content|
      invariant writer.written == old(writer.written) + content[..sent]
    {
      var count, failed := writer.WriteOnce(content[sent..]);
      if count <= 0 || count > |content| - sent || failed { return false; }
      assert content[..sent] + content[sent..][..count] == content[..sent + count];
      sent := sent + count;
    }
    assert content[..|content|] == content;
    ok := true;
  }

  /** One opened file: as much as was planned is copied, and there must be neither less nor more. */
  method SendFile(writer: ByteWriter, content: bytes, size: int) returns (ok: bool)
    modifies writer
    ensures ok ==> |content| == size && writer.written == old(writer.written) + content
    ensures !writer.faulty && |content| == size ==> ok
  {
    var copied := if |content| <= size then content else content[..if size < 0 then 0 else size];
    ok := WriteAll(writer, copied);
    ok := ok && |content| == size;
  }

  lemma ConcatNext(pieces: seq<bytes>, i: nat)
    requires i < |pieces|
    ensures Concat(pieces[..i + 1]) == Concat(pieces[..i]) + pieces[i]
  {
    assert pieces[..i + 1][..i] == pieces[..i];
  }

  method SendFiles(writer: ByteWriter, files: seq<HelperFile>, current: HelperFile -> bytes, ghost pieces: seq<bytes>)
    returns (ok: bool)
    requires |pieces| == |files| && forall k :: 0 <= k < |files| ==> pieces[k] == current(files[k])
    modifies writer
    ensures ok ==> SameSizes(files, pieces) && writer.written == old(writer.written) + Concat(pieces)
    ensures !writer.faulty && SameSizes(files, pieces) ==> ok
  {
    ok := true;
    assert pieces[..0] == [];
    for i := 0 to |files|
      invariant ok && forall k :: 0 <= k < i ==> |pieces[k]| == files[k].size
      invariant writer.written == old(writer.written) + Concat(pieces[..i])
    {
      ok := SendFile(writer, current(files[i]), files[i].size);
      if !ok { return; }
      ConcatNext(pieces, i);
    }
    assert pieces[..|files|] == pieces;
  }

  /** The end of RunHelper: the plan goes out if its encoding is not too long, then each opened file, which must still
      have the size it was opened with. */
  method SendCollection(codec: PlanCodec, writer: ByteWriter, plan: HelperPlan, current: HelperFile -> bytes)
    returns (ok: bool, ghost pieces: seq<bytes>)
    requires codec.encode(plan) != []
    modifies writer
    ensures pieces == seq(|plan.files|, k requires 0 <= k < |plan.files| => current(plan.files[k]))
    ensures ok ==>
              && |codec.encode(plan)| <= MAX_PLAN_BYTES && SameSizes(plan.files, pieces)
              && writer.written == old(writer.written) + (FrameBytes(codec.encode(plan)) + Concat(pieces))
    ensures !writer.faulty && |codec.encode(plan)| <= MAX_PLAN_BYTES && SameSizes(plan.files, pieces) ==> ok
  {
    hide FrameBytes, Concat, SameSizes;
    pieces := seq(|plan.files|, k requires 0 <= k < |plan.files| => current(plan.files[k]));
    var encoded := codec.encode(plan);
    if |encoded| > MAX_PLAN_BYTES { return false, pieces; }
    ok := writer.Write(encoded, MAX_PLAN_BYTES);
    if !ok { return; }
    ok := SendFiles(writer, plan.files, current, pieces);
  }

  /** What is accepted: a valid plan with something in it, followed by exactly as much content as it declares. */
  ghost predicate Receivable(lib: Library, selections: seq<ArtifactSelection>, plan: HelperPlan, content: bytes)
  {
    && HelperPlanValid(lib, plan, selections) && OmissionsValid(lib, plan.omissions)
    && (plan.files == [] ==> plan.omissions != []) && |content| == SumSizes(plan.files)
  }

  /** What an accepted collection is: valid, allowed, and coupled to content of the declared size and digest. */
  ghost predicate Carries(lib: Library, selections: seq<ArtifactSelection>, plan: HelperPlan, content: bytes,
                          r: Collection)
  {
    && !r.failed && ManifestValid(lib, r.manifest) && CollectionAllowed(lib, r.manifest, selections)
    && r.manifest.Omissions() == plan.omissions && |r.manifest.Files()| == |plan.files|
    && (r.bundle == null <==> plan.files == [])
    && forall k :: 0 <= k < |plan.files| ==>
         && r.bundle != null && Delivered(lib, plan.files[k], r.manifest.Files()[k], r.bundle.contents)
         && IsPiece(plan.files, content, k, ContentOf(r.bundle.contents, plan.files[k]))
  }

  ghost predicate Received(lib: Library, selections: seq<ArtifactSelection>, codec: PlanCodec, stream: bytes)
  {
    var frame := ReadFrame(stream, MAX_PLAN_BYTES);
    && frame.Done? && codec.decode(frame.value).Some?
    && Receivable(lib, selections, codec.decode(frame.value).value, frame.rest)
  }

  /** receiveCollection: whatever arrives, it is accepted exactly if it is one acceptable plan and the content that
      the plan declares; and then the collection is what arrived. */
  method ReceiveCollection(lib: Library, codec: PlanCodec, reader: ByteReader, selections: seq<ArtifactSelection>)
    returns (r: Option<Collection>)
    requires Lawful(lib) && SelectionsValid(lib, selections) && selections != []
    modifies reader
    ensures r.Some? <==> Received(lib, selections, codec, old(reader.unread)) && reader.endsCleanly
    ensures r.Some? ==>
              && (r.value.bundle != null ==> fresh(r.value.bundle) && !r.value.bundle.closed)
              && var frame := ReadFrame(old(reader.unread), MAX_PLAN_BYTES);
                 Carries(lib, selections, codec.decode(frame.value).value, frame.rest, r.value)
  {
    hide SelectionsValid, AbsorbsInParts, CollectionAllowed, FilesValid, OmissionsValid, HelperPlanValid, Digest,
         ReadFrame, Delivered, IsPiece;
    var encoded := reader.Read(MAX_PLAN_BYTES);
    if encoded.None? { return None; }
    var plan := codec.decode(encoded.value);
    if plan.None? { return None; }
    var ok := ValidateHelperPlan(lib, plan.value, selections);
    if !ok { return None; }
    ghost var content := reader.unread;
    var received, files, contents := ReceiveFiles(lib, plan.value, selections, reader);
    if !received { return None; }
    ok := reader.ExpectEof();
    if !ok { return None; }
    DeliveredManifest(lib, selections, plan.value, files, contents);
    ManifestOfPlan(lib, plan.value, files);
    var manifest := ArtifactManifest(ManifestStatus(|files|, |plan.value.omissions|), Some(files),
                                     Some(plan.value.omissions));
    ok := ValidateArtifactManifest(lib, manifest);
    if !ok { return None; }
    if |files| == 0 { return Some(Collection(false, manifest, null)); }
    var bundle := new ArtifactBundle(contents);
    r := Some(Collection(false, manifest, bundle));
  }

  lemma ManifestOfPlan(lib: Library, plan: HelperPlan, files: seq<ArtifactFile>)
    requires |files| == |plan.files|
    ensures var manifest := ArtifactManifest(ManifestStatus(|files|, |plan.omissions|), Some(files),
                                             Some(plan.omissions));
            ManifestValid(lib, manifest) ==>
              OmissionsValid(lib, plan.omissions) && (plan.files == [] ==> plan.omissions != [])
  {
    hide FilesValid, OmissionsValid;
  }

  /** The loop over the planned files. */
  method ReceiveFiles(lib: Library, plan: HelperPlan, selections: seq<ArtifactSelection>, reader: ByteReader)
    returns (ok: bool, files: seq<ArtifactFile>, contents: map<string, bytes>)
    requires Lawful(lib) && SelectionsValid(lib, selections) && HelperPlanValid(lib, plan, selections)
    modifies reader
    ensures ok <==> 0 <= SumSizes(plan.files) <= |old(reader.unread)|
    ensures ok ==>
              && |files| == |plan.files| && reader.unread == old(reader.unread)[SumSizes(plan.files)..]
              && forall k :: 0 <= k < |files| ==>
                   && Delivered(lib, plan.files[k], files[k], contents)
                   && IsPiece(plan.files, old(reader.unread), k, ContentOf(contents, plan.files[k]))
  {
    hide SelectionsValid, HelperFileValid, AbsorbsInParts, PlannedOmissionValid, Digest, Delivered, IsPiece, ContentOf,
         BundleKey, SumSizes;
    ghost var stream := reader.unread;
    assert SumSizes([]) == 0 by { NoSizes(); }
    ok, files, contents := true, [], map[];
    for i := 0 to |plan.files|
      invariant ok && |files| == i && 0 <= SumSizes(plan.files[..i]) <= |stream|
      invariant reader.unread == stream[SumSizes(plan.files[..i])..]
      invariant forall k :: 0 <= k < i ==> Delivered(lib, plan.files[k], files[k], contents)
      invariant forall k :: 0 <= k < i ==> IsPiece(plan.files, stream, k, ContentOf(contents, plan.files[k]))
    {
      var item := plan.files[i];
      PlannedSize(lib, selections, plan.files, i);
      SumPrefix(lib, selections, plan.files, i + 1);
      var piece, complete := reader.ReadFull(item.size);
      if !complete { return false, files, contents; }
      DeliveredKept(lib, selections, plan.files, i, files, contents, piece);
      NextDelivered(lib, plan.files, i, contents, stream, piece);
      contents := contents[BundleKey(item.group, item.path) := piece];
      files := files + [ArtifactFile(item.group, item.path, Digest(lib, piece), item.size)];
    }
    assert plan.files[..|plan.files|] == plan.files;
  }

  lemma NoSizes()
    ensures SumSizes([]) == 0
  {
  }

  lemma PlannedSize(lib: Library, selections: seq<ArtifactSelection>, files: seq<HelperFile>, i: nat)
    requires i < |files| && HelperFileValid(lib, selections, files[i])
    ensures 0 <= files[i].size && SumSizes(files[..i + 1]) == SumSizes(files[..i]) + files[i].size
  {
    assert files[..i + 1][..i] == files[..i];
  }

  lemma NextDelivered(lib: Library, files: seq<HelperFile>, i: nat, contents: map<string, bytes>, stream: bytes,
                      piece: bytes)
    requires i < |files| && 0 <= SumSizes(files[..i]) <= |stream| - files[i].size && 0 <= files[i].size
    requires piece == stream[SumSizes(files[..i])..][..files[i].size]
    ensures var item, after := files[i], contents[BundleKey(files[i].group, files[i].path) := piece];
            && Delivered(lib, item, ArtifactFile(item.group, item.path, Digest(lib, piece), item.size), after)
            && IsPiece(files, stream, i, ContentOf(after, item))
  {
    hide Digest;
  }

  // ----- One collection -----

  /** Every opened file still has the size it was planned with. */
  ghost predicate Unchanged(plan: HelperPlan, current: HelperFile -> bytes)
  {
    forall k :: 0 <= k < |plan.files| ==> |current(plan.files[k])| == plan.files[k].size
  }

  /** The bundle holds each planned file as it was when it was copied. */
  ghost predicate HoldsCurrent(plan: HelperPlan, current: HelperFile -> bytes, r: Collection)
  {
    forall k :: 0 <= k < |plan.files| ==>
      r.bundle != null && ContentOf(r.bundle.contents, plan.files[k]) == current(plan.files[k])
  }

  /** What was sent is accepted, and what is accepted is what was sent. */
  lemma SentIsReceived(lib: Library, codec: PlanCodec, selections: seq<ArtifactSelection>, plan: HelperPlan,
                       pieces: seq<bytes>)
    requires FaithfulPlans(lib, codec) && SelectionsValid(lib, selections) && PlanFromWalk(lib, selections, plan)
    requires |codec.encode(plan)| <= MAX_PLAN_BYTES && SameSizes(plan.files, pieces)
    ensures var stream := FrameBytes(codec.encode(plan)) + Concat(pieces);
            && ReadFrame(stream, MAX_PLAN_BYTES) == Done(codec.encode(plan), Concat(pieces))
            && codec.decode(codec.encode(plan)) == Some(plan) && Received(lib, selections, codec, stream)
  {
    hide SelectionsValid, HelperPlanValid, OmissionsValid, ReadFrame, FrameBytes;
    FrameRoundTrip(codec.encode(plan), Concat(pieces), MAX_PLAN_BYTES);
    PiecesOf(plan.files, pieces);
  }

  lemma CarriesCurrent(lib: Library, selections: seq<ArtifactSelection>, plan: HelperPlan, pieces: seq<bytes>,
                       current: HelperFile -> bytes, r: Collection)
    requires SameSizes(plan.files, pieces) && Carries(lib, selections, plan, Concat(pieces), r)
    requires pieces == seq(|plan.files|, k requires 0 <= k < |plan.files| => current(plan.files[k]))
    ensures HoldsCurrent(plan, current, r) && Unchanged(plan, current)
  {
    hide ManifestValid, CollectionAllowed, Delivered;
    PiecesOf(plan.files, pieces);
    forall k | 0 <= k < |plan.files|
      ensures r.bundle != null && ContentOf(r.bundle.contents, plan.files[k]) == current(plan.files[k])
    {
      assert IsPiece(plan.files, Concat(pieces), k, pieces[k]);
      assert IsPiece(plan.files, Concat(pieces), k, ContentOf(r.bundle.contents, plan.files[k]));
    }
  }

  /** What one collection amounts to. */
  ghost predicate Collected(lib: Library, selections: seq<ArtifactSelection>, plan: HelperPlan,
                            current: HelperFile -> bytes, r: Collection)
  {
    && ManifestValid(lib, r.manifest) && CollectionAllowed(lib, r.manifest, selections)
    && r.manifest.Omissions() == plan.omissions && (r.bundle == null <==> plan.files == [])
    && HoldsCurrent(plan, current, r)
  }

  /** The helper sends what it planned, and the collector accepts it and waits for the helper's success. */
  method Transfer(lib: Library, codec: PlanCodec, selections: seq<ArtifactSelection>, plan: HelperPlan,
                  current: HelperFile -> bytes, faulty: bool) returns (r: Option<Collection>)
    requires Lawful(lib) && FaithfulPlans(lib, codec) && SelectionsValid(lib, selections) && selections != []
    requires PlanFromWalk(lib, selections, plan)
    ensures r.Some? ==>
              && |codec.encode(plan)| <= MAX_PLAN_BYTES && Unchanged(plan, current)
              && Collected(lib, selections, plan, current, r.value)
    ensures !faulty && |codec.encode(plan)| <= MAX_PLAN_BYTES && Unchanged(plan, current) ==> r.Some?
  {
    hide SelectionsValid, ReadFrame, FrameBytes, Received, Carries, PlanFromWalk, Lawful, Collected;
    var writer := new ByteWriter(faulty);
    ghost var before := writer.written;
    var sent, pieces := SendCollection(codec, writer, plan, current);
    if Unchanged(plan, current) { assert SameSizes(plan.files, pieces); }
    if sent {
      assert writer.written == FrameBytes(codec.encode(plan)) + Concat(pieces);
      SentIsReceived(lib, codec, selections, plan, pieces);
    }
    var reader := new ByteReader(writer.written, true);
    r := ReceiveCollection(lib, codec, reader, selections);
    if !sent {
      if r.Some? && r.value.bundle != null { r.value.bundle.Close(); }
      return None;
    }
    CarriesCurrent(lib, selections, plan, pieces, current, r.value);
    CarriesManifest(lib, selections, plan, Concat(pieces), current, r.value);
  }

  /** Collect, from the walk to the bundle. On a sound pipe a collection comes about exactly if the walk does not
      stumble, the encoded plan fits its limit, and no planned file has changed its size since it was opened; then the
      plan answers for every selected file that can be reached, and the bundle holds what was planned. */
  method Collect(lib: Library, probe: ProbeOracle, codec: PlanCodec, root: Node, selections: seq<ArtifactSelection>,
                 current: HelperFile -> bytes, faulty: bool)
    returns (r: Option<Collection>, ghost plan: Option<HelperPlan>)
    requires Lawful(lib) && FaithfulPlans(lib, codec) && SelectionsValid(lib, selections) && selections != []
    requires root.Directory? && NamesPresent(root)
    ensures plan.None? <==>
            exists k :: 0 <= k < |VisitedBelow(lib, root)|
                        && Stumbles(lib, Flatten(selections), VisitedBelow(lib, root)[k], k)
    ensures r.Some? ==>
              && plan.Some? && |codec.encode(plan.value)| <= MAX_PLAN_BYTES && Unchanged(plan.value, current)
              && Collected(lib, selections, plan.value, current, r.value)
    ensures !faulty && plan.Some? && |codec.encode(plan.value)| <= MAX_PLAN_BYTES && Unchanged(plan.value, current) ==>
              r.Some?
    ensures r.Some? ==>
              forall group, pattern, path ::
                  OmissionAllowed(selections, group, pattern) && Selecting(lib, pattern, path) ==>
                IsReadableLeaf("", root, path) ==> AnswersFor(plan.value, group, pattern, path)
  {
    hide SelectionsValid, Collected, Stumbles, AllCollectable, Unmatched, IsReadableLeaf, AnswersFor, Selecting,
         PlanFromWalk, Unchanged, Lawful, FaithfulPlans, VisitedBelow, Flatten, NamesPresent, LeafVisited;
    var planned := CollectFiles(lib, probe, root, selections);
    r, plan := None, planned;
    if planned.Some? {
      r := Transfer(lib, codec, selections, planned.value, current, faulty);
    }
  }

  lemma CarriesManifest(lib: Library, selections: seq<ArtifactSelection>, plan: HelperPlan, content: bytes,
                        current: HelperFile -> bytes, r: Collection)
    requires Carries(lib, selections, plan, content, r) && HoldsCurrent(plan, current, r)
    ensures Collected(lib, selections, plan, current, r)
  {
    hide ManifestValid, CollectionAllowed, Delivered, IsPiece;
  }
}
