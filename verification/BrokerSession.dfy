/** internal/brokersession: one request from its first byte to the acknowledgement of its response. */
module BrokerSession {
  import opened Protocol
  import opened IpcFrame
  import opened ExecutionPolicy
  import opened ExecutionRun
  import opened OutputCapture
  import opened BrokerWire
  import opened ControlClient
  import opened BackgroundRun
  import Background
  import opened BackgroundRunner
  import LinuxCollector
  import HelperProtocol

  /** A session as New leaves it: the JSON codecs, the installation and the source revision are given. */
  datatype Deployment = Deployment(
    lib: Library, codec: Codec, parseEnvelope: bytes -> Option<Envelope>, at: Installation, sha: string)

  ghost predicate Sound(d: Deployment)
  {
    Lawful(d.lib) && Faithful(d.lib, d.codec) && LowerHex(d.sha, 40)
  }

  /** What one request meets besides its own bytes. */
  datatype Conditions = Conditions(world: World, outside: Outside, cancelledEarly: bool, cancelledLate: bool)

  /** Runner.Run: a request is executed, or performed on the background registry, and nothing else. */
  method Run(lib: Library, runner: Runner, plan: LaunchPlan, sha: string, world: World, outside: Outside)
    returns (result: RunResult, ghost outcome: RunOutcome)
    requires Lawful(lib) && runner.Valid()
    requires world.collector.Some? && world.collector.value.bundle != null ==> !world.collector.value.bundle.closed
    modifies runner
    modifies if world.collector.Some? && world.collector.value.bundle != null
             then {world.collector.value.bundle} else {}
    ensures runner.Continues()
    ensures result.Produced? <==>
              && (if plan.operation == Execute then PlanAccepted(lib, plan, sha, world.startedAt)
                  else BackgroundAccepted(lib, plan, sha))
              && Reportable(world.startedAt, world.finishedAt, outcome)
    ensures if plan.operation == Execute then
              outcome == OutcomeOf(lib, plan, world) && unchanged(runner)
            else if BackgroundAccepted(lib, plan, sha) then
              Performed(plan, outside, old(runner.Now()), runner.states[|old(runner.states)|..], runner.Now(), outcome)
            else runner.Now() == old(runner.Now())
    ensures result.Produced? ==>
              && Tells(lib, plan, sha, world.startedAt, world.finishedAt, outcome, result.output)
              && OutputValid(lib, result.output) && BindsEveryRequest(lib, plan, result.output.report)
    ensures result.Produced? && result.output.bundle != null ==>
              && world.collector.Some? && result.output.bundle == world.collector.value.bundle
              && plan.operation == Execute && Asked(lib, plan, sha, world) && unchanged(result.output.bundle)
    ensures world.collector.Some? && world.collector.value.bundle != null ==>
              if plan.operation != Execute || !Asked(lib, plan, sha, world) then unchanged(world.collector.value.bundle)
              else
                || world.collector.value.bundle.closed
                || (result.Produced? && result.output.bundle == world.collector.value.bundle)
  {
    hide OutputValid, BindsEveryRequest, Tells, Performed, BackgroundAccepted, OutcomeOf, Asked, PlanAccepted,
         Reportable,
         Background.IsRun, Later;
    if plan.operation == Execute {
      result := RunForeground(lib, plan, sha, world);
      outcome := OutcomeOf(lib, plan, world);
      LaterSelf(runner.Now());
      ForegroundRefusals(lib, plan, sha, world, result);
    } else {
      result, outcome := RunBackground(lib, runner, plan, sha, world.startedAt, world.finishedAt, outside);
    }
  }

  /** The three reasons for which runForeground refuses, taken together. */
  lemma ForegroundRefusals(lib: Library, plan: LaunchPlan, sha: string, world: World, result: RunResult)
    requires Lawful(lib)
    requires result == Refused(InvalidLaunchPlan) <==> !PlanAccepted(lib, plan, sha, world.startedAt)
    requires result == Refused(ClockRegression) <==>
             PlanAccepted(lib, plan, sha, world.startedAt) && world.finishedAt < world.startedAt
    requires result == Refused(InvalidExecutionReport) <==>
             && PlanAccepted(lib, plan, sha, world.startedAt) && world.startedAt <= world.finishedAt
             && (|| |AcceptedBytes([], world.stdoutChunks)| > MAX_INT64
                 || |AcceptedBytes([], world.stderrChunks)| > MAX_INT64
                 || !Representable(world.finishedAt))
    ensures result.Produced? <==>
              && PlanAccepted(lib, plan, sha, world.startedAt)
              && Reportable(world.startedAt, world.finishedAt, OutcomeOf(lib, plan, world))
  {
    hide PlanAccepted, ArtifactsOf, AwaitedIn, Representable;
    AcceptedStart(lib, plan, sha, world.startedAt);
    if result.Refused? {
      match result.error {
        case InvalidLaunchPlan =>
        case ClockRegression =>
        case InvalidExecutionReport =>
      }
    }
  }

  lemma AcceptedStart(lib: Library, plan: LaunchPlan, sha: string, startedAt: int)
    requires Lawful(lib)
    ensures PlanAccepted(lib, plan, sha, startedAt) ==> Representable(startedAt)
  {
    hide ReportValid, FailedManifest;
    if PlanAccepted(lib, plan, sha, startedAt) {
      FallbackValidity(lib, plan, sha, startedAt, startedAt, startedAt, RuntimeFailed, None, [], []);
    }
  }

  /** One exchange stream: everything since `before` is one response and its terminal marker. */
  ghost predicate Exchanged(d: Deployment, before: bytes, after: bytes, sent: Delivery)
  {
    before <= after && CarriesResponse(d.lib, d.codec, after[|before|..], sent)
  }

  /** The acknowledgement is next. */
  ghost predicate Acknowledges(stream: bytes)
  {
    var frame := ReadFrame(stream, MAX_EXCHANGE_MARKER_BYTES);
    frame.Done? && frame.value == ACKNOWLEDGEMENT_MARKER
  }

  ghost predicate Compact(codec: Codec)
  {
    forall p :: PreambleValid(p) ==> |codec.encodePreamble(p)| <= MAX_PREAMBLE_BYTES
  }

  /** WriteRejectionExchange */
  method Reject(d: Deployment, reader: ByteReader, writer: ByteWriter, failure: Failure) returns (ok: bool)
    requires Sound(d) && failure != NoFailure && failure != UnsupportedFailure
    modifies reader, writer
    ensures ok ==> Exchanged(d, old(writer.written), writer.written, Rejection(failure))
    ensures !writer.faulty && Compact(d.codec) && Acknowledges(old(reader.unread)) ==> ok
  {
    hide ReadReply, FrameBytes, ReadFrame;
    assert PreambleValid(RejectionPreamble(failure));
    ok := WriteRejection(d.codec, writer, failure);
    if !ok { return; }
    ghost var frame := FrameBytes(d.codec.encodePreamble(RejectionPreamble(failure)));
    ok := FinishServerExchange(reader, writer);
    if ok {
      MarkerEndsExchange();
      RejectionRoundTrip(d.lib, d.codec, failure, FrameBytes(TERMINAL_MARKER));
      assert writer.written == old(writer.written) + (frame + FrameBytes(TERMINAL_MARKER));
      assert writer.written[|old(writer.written)|..] == frame + FrameBytes(TERMINAL_MARKER);
    }
  }

  lemma MarkerEndsExchange()
    ensures EndsExchange(FrameBytes(TERMINAL_MARKER))
  {
    FrameRoundTrip(TERMINAL_MARKER, [], MAX_EXCHANGE_MARKER_BYTES);
    assert FrameBytes(TERMINAL_MARKER) + [] == FrameBytes(TERMINAL_MARKER);
  }

  /** WriteExecutionExchange: what goes out carries the output and nothing else. */
  method Respond(d: Deployment, reader: ByteReader, writer: ByteWriter, output: Output)
    returns (ok: bool, ghost reply: Reply)
    requires Sound(d)
    modifies reader, writer, if output.bundle != null then {output.bundle} else {}
    ensures output.bundle != null ==> output.bundle.closed
    ensures ok ==>
              && ReplyLegal(d.lib, d.codec, reply) && Conveys(reply, output)
              && Exchanged(d, old(writer.written), writer.written, Content(reply))
    ensures !writer.faulty && old(Sendable(d.lib, d.codec, output)) && Acknowledges(old(reader.unread)) ==> ok
  {
    hide ReadReply, FrameBytes, ReplyLegal, Conveys, Content, ReplyBytes, ReadFrame, Sendable;
    ok, reply := WriteExecution(d.lib, d.codec, writer, output);
    if !ok { return; }
    ghost var body := ReplyBytes(d.lib, d.codec, reply);
    ok := FinishServerExchange(reader, writer);
    if ok {
      MarkerEndsExchange();
      ReplyRoundTrip(d.lib, d.codec, reply, FrameBytes(TERMINAL_MARKER));
      assert writer.written == old(writer.written) + (body + FrameBytes(TERMINAL_MARKER));
      assert writer.written[|old(writer.written)|..] == body + FrameBytes(TERMINAL_MARKER);
    }
  }

  // ----- What a request deserves -----

  /** DecodeExecuteEnvelope: parsing, then validation. */
  ghost function Decoded(d: Deployment, encoded: bytes): Option<Envelope>
  {
    var envelope := d.parseEnvelope(encoded);
    if envelope.Some? && EnvelopeValid(d.lib, envelope.value) then envelope else None
  }

  method DecodeEnvelope(d: Deployment, encoded: bytes) returns (envelope: Option<Envelope>)
    ensures envelope == Decoded(d, encoded)
  {
    hide EnvelopeValid;
    envelope := d.parseEnvelope(encoded);
    if envelope.None? { return; }
    var ok := ValidateEnvelope(d.lib, envelope.value);
    if !ok { envelope := None; }
  }

  /** The envelope is run: it is permitted, and its context was alive before and after it was authorized. */
  ghost predicate Runs(d: Deployment, envelope: Envelope, given: Conditions)
  {
    !given.cancelledEarly && !given.cancelledLate && Permitted(d.lib, d.at, envelope)
  }

  /** The delivery is the outcome: its report, the retained prefix of its two streams, and, file by file, what the
      collector's bundle holds. */
  ghost predicate Delivers(d: Deployment, plan: LaunchPlan, world: World, outcome: RunOutcome, sent: Delivery)
  {
    var files := outcome.artifacts.Files();
    && sent.Delivery? && |sent.artifacts| == |files|
    && Tells(d.lib, plan, d.sha, world.startedAt, world.finishedAt, outcome,
             Output(sent.report, sent.stdout, sent.stderr, null))
    && (files != [] ==> world.collector.Some? && world.collector.value.bundle != null)
    && forall k :: 0 <= k < |files| ==>
         var key := BundleKey(files[k].group, files[k].path);
         key in world.collector.value.bundle.contents && sent.artifacts[k] == world.collector.value.bundle.contents[key]
  }

  /** What the sender of an envelope is entitled to be told. */
  ghost predicate EnvelopeDeserves(d: Deployment, envelope: Envelope, given: Conditions, plan: LaunchPlan,
                                   outcome: RunOutcome, sent: Delivery)
  {
    if given.cancelledEarly then sent == Rejection(ExecutionUnavailable)
    else if !Permitted(d.lib, d.at, envelope) then sent == Rejection(AuthorizationDenied)
    else if given.cancelledLate || !Reportable(given.world.startedAt, given.world.finishedAt, outcome) then
      sent == Rejection(ExecutionUnavailable)
    else
      && Delivers(d, plan, given.world, outcome, sent)
      && Answers(d.lib, envelope.accepted, envelope.attemptId, sent) && sent.report.gatewaySourceSha == d.sha
  }

  ghost predicate Deserved(d: Deployment, request: bytes, given: Conditions, plan: LaunchPlan, outcome: RunOutcome,
                           sent: Delivery)
  {
    var frame := ReadFrame(request, MAX_ENVELOPE_BYTES);
    if !frame.Done? then sent == Rejection(InvalidFrame)
    else if Decoded(d, frame.value).None? then sent == Rejection(InvalidEnvelope)
    else EnvelopeDeserves(d, Decoded(d, frame.value).value, given, plan, outcome, sent)
  }

  /** If there is a report, its encoding fits a frame. No validator guarantees that. */
  ghost predicate ReportFits(d: Deployment, given: Conditions, plan: LaunchPlan, outcome: RunOutcome)
  {
    Reportable(given.world.startedAt, given.world.finishedAt, outcome) && 0 <= plan.maxOutputBytes ==>
      |d.codec.encodeReport(ReportOf(d.lib, plan, d.sha, given.world.startedAt, given.world.finishedAt, outcome))|
      <= MAX_REPORT_BYTES
  }

  /** Nothing but the transport is in the way: the records fit their frames, and the bundle holds what its manifest
      lists. */
  ghost predicate Deliverable(d: Deployment, given: Conditions, plan: LaunchPlan, outcome: RunOutcome)
  {
    var files := outcome.artifacts.Files();
    && Compact(d.codec) && ReportFits(d, given, plan, outcome)
    && (given.world.collector.Some? && given.world.collector.value.bundle != null ==>
          forall k :: 0 <= k < |files| ==> Holds(d.lib, given.world.collector.value.bundle.contents, files[k]))
  }

  /** Which bundle a run may leave behind; it is closed if the collector was asked for it. */
  ghost predicate CollectorAsked(d: Deployment, envelope: Envelope, given: Conditions, plan: LaunchPlan)
  {
    Runs(d, envelope, given) && plan.operation == Execute && Asked(d.lib, plan, d.sha, given.world)
  }

  // ----- The session -----

  /** The run of an authorized request, and its response. */
  method Serve(d: Deployment, reader: ByteReader, writer: ByteWriter, runner: Runner, envelope: Envelope,
               given: Conditions, plan: LaunchPlan)
    returns (ok: bool, ghost sent: Delivery, ghost outcome: RunOutcome)
    requires Sound(d) && runner.Valid() && Runs(d, envelope, given) && PlanOf(d.at, envelope, plan)
    requires given.world.collector.Some? && given.world.collector.value.bundle != null ==>
               !given.world.collector.value.bundle.closed
    modifies reader, writer, runner
    modifies if given.world.collector.Some? && given.world.collector.value.bundle != null
             then {given.world.collector.value.bundle} else {}
    ensures runner.Continues()
    ensures ok ==>
              && Exchanged(d, old(writer.written), writer.written, sent)
              && EnvelopeDeserves(d, envelope, given, plan, outcome, sent) && ReportFits(d, given, plan, outcome)
    ensures !writer.faulty && Acknowledges(old(reader.unread)) && Deliverable(d, given, plan, outcome)
            && (given.world.collector.Some? && given.world.collector.value.bundle != null ==>
                  old(given.world.collector.value.bundle.handed) == {})
            ==> ok
    ensures if plan.operation == Execute then outcome == OutcomeOf(d.lib, plan, given.world) && unchanged(runner)
            else
              Performed(plan, given.outside, old(runner.Now()), runner.states[|old(runner.states)|..], runner.Now(),
                        outcome)
    ensures given.world.collector.Some? && given.world.collector.value.bundle != null ==>
              if CollectorAsked(d, envelope, given, plan) then given.world.collector.value.bundle.closed
              else unchanged(given.world.collector.value.bundle)
  {
    hide Sound, OutputValid, BindsEveryRequest, Tells, Performed, BackgroundAccepted, PlanAccepted, Permitted, PlanOf,
         ArtifactsOf, AwaitedIn, Exchanged, ReportValid, BindingHolds, AcceptedValid, Content, Conveys, ReplyLegal,
         EnvelopeDeserves, Deliverable, Acknowledges, Compact, Reportable, Sendable, ReportFits;
    RunnablePlan(d, envelope, given, plan);
    var result;
    result, outcome := Run(d.lib, runner, plan, d.sha, given.world, given.outside);
    StartIsOpen(given.world.startedAt, given.world.finishedAt, outcome);
    if Deliverable(d, given, plan, outcome) { DeliverableIsCompact(d, given, plan, outcome); }
    if result.Refused? {
      ok := Reject(d, reader, writer, ExecutionUnavailable);
      sent := Rejection(ExecutionUnavailable);
      RefusalDeserved(d, envelope, given, plan, outcome);
      NoReportFits(d, given, plan, outcome);
      return;
    }
    var output := result.output;
    var bound := ValidateExecutionReportBinding(d.lib, envelope.accepted, output.report);
    OutputIsBound(d, plan, envelope, given.world, outcome, output);
    assert bound && output.report.attemptId == envelope.attemptId && output.report.gatewaySourceSha == d.sha;
    if Deliverable(d, given, plan, outcome) && (output.bundle != null ==> output.bundle.handed == {}) {
      DeliverableIsSendable(d, given, plan, outcome, output);
    }
    ghost var reply: Reply;
    ok, reply := Respond(d, reader, writer, output);
    sent := Content(reply);
    if ok {
      OutputDeserved(d, envelope, given, plan, outcome, output, reply);
      SentReportFits(d, given, plan, outcome, output, reply);
    }
  }

  /** The envelope a byte stream opens with. */
  ghost function EnvelopeIn(d: Deployment, request: bytes): Option<Envelope>
  {
    var frame := ReadFrame(request, MAX_ENVELOPE_BYTES);
    if frame.Done? then Decoded(d, frame.value) else None
  }

  ghost predicate RequestRuns(d: Deployment, request: bytes, given: Conditions)
  {
    EnvelopeIn(d, request).Some? && Runs(d, EnvelopeIn(d, request).value, given)
  }

  /** Handle. One response goes out, the one that the request deserves in the conditions it met: a rejection for the
      right reason, or the report and the content of exactly what its own plan came to. Nothing but the transport and
      the length of the encoded report can keep it from the sender, and too long a report always does; the registry
      and the collector are touched only by a request that runs; and a bundle that was asked for is closed at the end,
      whatever happened. The check that guards the response against an unbound report never fires. */
  method Handle(d: Deployment, reader: ByteReader, writer: ByteWriter, runner: Runner, given: Conditions)
    returns (ok: bool, ghost sent: Delivery, ghost plan: LaunchPlan, ghost outcome: RunOutcome)
    requires Sound(d) && runner.Valid()
    requires given.world.collector.Some? && given.world.collector.value.bundle != null ==>
               !given.world.collector.value.bundle.closed
    modifies reader, writer, runner
    modifies if given.world.collector.Some? && given.world.collector.value.bundle != null
             then {given.world.collector.value.bundle} else {}
    ensures runner.Continues()
    ensures ok ==>
              && Exchanged(d, old(writer.written), writer.written, sent)
              && Deserved(d, old(reader.unread), given, plan, outcome, sent)
              && (RequestRuns(d, old(reader.unread), given) ==> ReportFits(d, given, plan, outcome))
    ensures var frame := ReadFrame(old(reader.unread), MAX_ENVELOPE_BYTES);
            frame.Done? && !writer.faulty && Acknowledges(frame.rest) ==>
              (if RequestRuns(d, old(reader.unread), given) then
                 && Deliverable(d, given, plan, outcome)
                 && (given.world.collector.Some? && given.world.collector.value.bundle != null ==>
                       old(given.world.collector.value.bundle.handed) == {})
               else Compact(d.codec)) ==> ok
    ensures if RequestRuns(d, old(reader.unread), given) then
              && PlanOf(d.at, EnvelopeIn(d, old(reader.unread)).value, plan)
              && if plan.operation == Execute then outcome == OutcomeOf(d.lib, plan, given.world) && unchanged(runner)
                 else
              Performed(plan, given.outside, old(runner.Now()), runner.states[|old(runner.states)|..], runner.Now(),
                        outcome)
            else unchanged(runner)
    ensures given.world.collector.Some? && given.world.collector.value.bundle != null ==>
              if RequestRuns(d, old(reader.unread), given) && plan.operation == Execute
                 && Asked(d.lib, plan, d.sha, given.world)
              then given.world.collector.value.bundle.closed
              else unchanged(given.world.collector.value.bundle)
  {
    hide Sound, PlanOf, Performed, OutcomeOf, Asked, Exchanged, Deliverable, Acknowledges, Compact, Delivers,
         Reportable, ReportFits, Permitted, ReadFrame, Decoded, Background.IsRun, Later;
    LaterSelf(runner.Now());
    plan, outcome := *, *;
    var encoded := reader.Read(MAX_ENVELOPE_BYTES);
    if encoded.None? {
      ok := Reject(d, reader, writer, InvalidFrame);
      sent := Rejection(InvalidFrame);
      return;
    }
    var envelope := DecodeEnvelope(d, encoded.value);
    if envelope.None? {
      ok := Reject(d, reader, writer, InvalidEnvelope);
      sent := Rejection(InvalidEnvelope);
      return;
    }
    if given.cancelledEarly {
      ok := Reject(d, reader, writer, ExecutionUnavailable);
      sent := Rejection(ExecutionUnavailable);
      return;
    }
    var authorized := Authorize(d.lib, d.at, envelope.value);
    if authorized.None? {
      ok := Reject(d, reader, writer, AuthorizationDenied);
      sent := Rejection(AuthorizationDenied);
      return;
    }
    if given.cancelledLate {
      ok := Reject(d, reader, writer, ExecutionUnavailable);
      sent := Rejection(ExecutionUnavailable);
      return;
    }
    plan := authorized.value;
    ok, sent, outcome := Serve(d, reader, writer, runner, envelope.value, given, authorized.value);
  }

  // ----- Why the response is the deserved one -----

  /** Preflight lets every authorized plan through, so long as the clock can be formatted. */
  lemma RunnablePlan(d: Deployment, envelope: Envelope, given: Conditions, plan: LaunchPlan)
    requires Sound(d) && Runs(d, envelope, given) && PlanOf(d.at, envelope, plan)
    ensures Lawful(d.lib) && AcceptedValid(d.lib, envelope.accepted) && PlanFor(envelope.accepted, plan)
    ensures plan.attemptId == envelope.attemptId
    ensures if plan.operation == Execute then
              PlanAccepted(d.lib, plan, d.sha, given.world.startedAt) <==> Representable(given.world.startedAt)
            else BackgroundAccepted(d.lib, plan, d.sha)
  {
    hide PlanAccepted, BackgroundAccepted, AcceptedValid;
    AuthorizedIsAccepted(d.lib, d.at, envelope, plan, d.sha, given.world.startedAt);
    if plan.operation != Execute { AuthorizedIsBackground(d.lib, d.at, envelope, plan, d.sha); }
  }

  lemma StartIsOpen(startedAt: int, finishedAt: int, outcome: RunOutcome)
    ensures Reportable(startedAt, finishedAt, outcome) ==> Representable(startedAt)
  {
  }

  lemma RefusalDeserved(d: Deployment, envelope: Envelope, given: Conditions, plan: LaunchPlan, outcome: RunOutcome)
    requires Runs(d, envelope, given) && !Reportable(given.world.startedAt, given.world.finishedAt, outcome)
    ensures EnvelopeDeserves(d, envelope, given, plan, outcome, Rejection(ExecutionUnavailable))
  {
    hide Permitted, Reportable, Delivers;
  }

  lemma NoReportFits(d: Deployment, given: Conditions, plan: LaunchPlan, outcome: RunOutcome)
    requires !Reportable(given.world.startedAt, given.world.finishedAt, outcome)
    ensures ReportFits(d, given, plan, outcome)
  {
    hide Reportable;
  }

  /** A report that went out has fitted its frame. */
  lemma SentReportFits(d: Deployment, given: Conditions, plan: LaunchPlan, outcome: RunOutcome, output: Output,
                       reply: Reply)
    requires ReplyLegal(d.lib, d.codec, reply) && Conveys(reply, output)
    requires Tells(d.lib, plan, d.sha, given.world.startedAt, given.world.finishedAt, outcome, output)
    ensures ReportFits(d, given, plan, outcome)
  {
    hide ReportValid, Reportable, ReportOf, Digest, LegalChunks;
  }

  lemma OutputIsBound(d: Deployment, plan: LaunchPlan, envelope: Envelope, world: World, outcome: RunOutcome,
                      output: Output)
    requires OutputValid(d.lib, output) && BindsEveryRequest(d.lib, plan, output.report)
    requires AcceptedValid(d.lib, envelope.accepted) && PlanFor(envelope.accepted, plan)
    requires plan.attemptId == envelope.attemptId
    requires Tells(d.lib, plan, d.sha, world.startedAt, world.finishedAt, outcome, output)
    ensures ReportValid(d.lib, output.report) && BindingHolds(envelope.accepted, output.report)
    ensures output.report.attemptId == envelope.attemptId && output.report.gatewaySourceSha == d.sha
    ensures output.report.artifacts == outcome.artifacts
    ensures output.report.artifacts.Files() == [] <==> output.bundle == null
  {
    hide ReportValid, AcceptedValid, BindingHolds, PlanFor;
  }

  lemma DeliverableIsCompact(d: Deployment, given: Conditions, plan: LaunchPlan, outcome: RunOutcome)
    requires Deliverable(d, given, plan, outcome)
    ensures Compact(d.codec)
  {
  }

  lemma DeliverableIsSendable(d: Deployment, given: Conditions, plan: LaunchPlan, outcome: RunOutcome, output: Output)
    requires Lawful(d.lib) && Deliverable(d, given, plan, outcome) && OutputValid(d.lib, output)
    requires Tells(d.lib, plan, d.sha, given.world.startedAt, given.world.finishedAt, outcome, output)
    requires output.bundle != null ==>
               && given.world.collector.Some? && output.bundle == given.world.collector.value.bundle
               && !output.bundle.closed && output.bundle.handed == {}
    ensures Sendable(d.lib, d.codec, output)
  {
    hide OutputValid, Holds, Digest, Reportable;
    DigestIsHex(d.lib, output.stdout);
    DigestIsHex(d.lib, output.stderr);
    assert PreambleValid(ExecutionPreamble(d.lib, output));
  }

  lemma OutputDeserved(d: Deployment, envelope: Envelope, given: Conditions, plan: LaunchPlan, outcome: RunOutcome,
                       output: Output, reply: Reply)
    requires Runs(d, envelope, given) && Conveys(reply, output)
    requires Tells(d.lib, plan, d.sha, given.world.startedAt, given.world.finishedAt, outcome, output)
    requires output.report.artifacts == outcome.artifacts
    requires output.report.artifacts.Files() == [] <==> output.bundle == null
    requires output.bundle != null ==>
              given.world.collector.Some? && output.bundle == given.world.collector.value.bundle
    requires ReportValid(d.lib, output.report) && BindingHolds(envelope.accepted, output.report)
    requires output.report.attemptId == envelope.attemptId && output.report.gatewaySourceSha == d.sha
    ensures EnvelopeDeserves(d, envelope, given, plan, outcome, Content(reply))
  {
    hide ReportValid, BindingHolds, Permitted, Reportable;
  }

  /** What the collector delivers is what the writer needs: every listed file's content, of the listed size and
      digest. */
  lemma DeliveredIsHeld(lib: Library, planned: LinuxCollector.HelperFile, file: ArtifactFile,
                        contents: map<string, bytes>)
    requires HelperProtocol.Delivered(lib, planned, file, contents)
    ensures Holds(lib, contents, file)
  {
  }
}
