/** The terminal handshake of internal/brokerwire as two parties over bounded FIFO byte channels:
    every interleaving of partial writes, one-byte reads, failures and closes. */
module WireExchange {
  import opened Protocol
  import opened IpcFrame
  import opened BrokerWire

  datatype ServerPhase = Sending | AwaitingAck | ServerDone | ServerFailed

  datatype ClientPhase = Reading | AwaitingMarker | Acking | AwaitingEof | ClientDone | ClientFailed

  /** `reply` is what the server sends in front of the marker; `capacity` bounds both channels. */
  datatype Config = Config(lib: Library, codec: Codec, reply: bytes, delivery: Delivery, capacity: nat)

  /** The server sends a complete response, and channels can hold something. */
  ghost predicate ConfigValid(c: Config)
  {
    ReadReply(c.lib, c.codec, c.reply) == Done(c.delivery, []) && c.capacity > 0
  }

  function Marker(): bytes { FrameBytes(TERMINAL_MARKER) }

  function Ack(): bytes { FrameBytes(ACKNOWLEDGEMENT_MARKER) }

  datatype State = State(
    server: ServerPhase, toSend: bytes, ackGot: bytes,
    client: ClientPhase, replyGot: bytes, markerGot: bytes, toAck: bytes,
    down: bytes, up: bytes)
  {
    predicate DownClosed() { server == ServerDone || server == ServerFailed }
    predicate UpClosed() { client == ClientDone || client == ClientFailed }
  }

  function Init(c: Config): State
  {
    State(Sending, c.reply + Marker(), [], Reading, [], [], [], [], [])
  }

  datatype Step =
    | ServerSend(count: nat) | ServerReceive | ServerSeesEof | ServerFail
    | ClientReceive | ClientAck(count: nat) | ClientSeesEof | ClientFail

  function AfterAckByte(s: State, got: bytes): State
  {
    match ReadFrame(got, MAX_EXCHANGE_MARKER_BYTES)
    case Starved => s.(ackGot := got)
    case Denied => s.(ackGot := got, server := ServerFailed)
    case Done(payload, _) =>
      s.(ackGot := got, server := if payload == ACKNOWLEDGEMENT_MARKER then ServerDone else ServerFailed)
  }

  ghost function AfterReplyByte(c: Config, s: State, got: bytes): State
  {
    match ReadReply(c.lib, c.codec, got)
    case Starved => s.(replyGot := got)
    case Denied => s.(replyGot := got, client := ClientFailed)
    case Done(_, _) => s.(replyGot := got, client := AwaitingMarker)
  }

  function AfterMarkerByte(s: State, got: bytes): State
  {
    match ReadFrame(got, MAX_EXCHANGE_MARKER_BYTES)
    case Starved => s.(markerGot := got)
    case Denied => s.(markerGot := got, client := ClientFailed)
    case Done(payload, _) =>
      if payload == TERMINAL_MARKER then s.(markerGot := got, client := Acking, toAck := Ack())
      else s.(markerGot := got, client := ClientFailed)
  }

  /** The state after a step, or None where the step is not possible. */
  ghost function Apply(c: Config, s: State, step: Step): Option<State>
  {
    match step
    case ServerSend(count) =>
      if s.server == Sending && 0 < count <= |s.toSend| && |s.down| + count <= c.capacity then
        Some(s.(toSend := s.toSend[count..], down := s.down + s.toSend[..count],
                server := if count == |s.toSend| then AwaitingAck else Sending))
      else None
    case ServerReceive =>
      if s.server == AwaitingAck && s.up != [] then
        Some(AfterAckByte(s.(up := s.up[1..]), s.ackGot + [s.up[0]]))
      else None
    case ServerSeesEof =>
      if s.server == AwaitingAck && s.up == [] && s.UpClosed() then Some(s.(server := ServerFailed)) else None
    case ServerFail =>
      if !s.DownClosed() then Some(s.(server := ServerFailed)) else None
    case ClientReceive =>
      if s.client == Reading && s.down != [] then
        Some(AfterReplyByte(c, s.(down := s.down[1..]), s.replyGot + [s.down[0]]))
      else if s.client == AwaitingMarker && s.down != [] then
        Some(AfterMarkerByte(s.(down := s.down[1..]), s.markerGot + [s.down[0]]))
      else if s.client == AwaitingEof && s.down != [] then Some(s.(client := ClientFailed))
      else None
    case ClientAck(count) =>
      if s.client == Acking && 0 < count <= |s.toAck| && |s.up| + count <= c.capacity then
        Some(s.(toAck := s.toAck[count..], up := s.up + s.toAck[..count],
                client := if count == |s.toAck| then AwaitingEof else Acking))
      else None
    case ClientSeesEof =>
      if s.down == [] && s.DownClosed() && (s.client == Reading || s.client == AwaitingMarker) then
        Some(s.(client := ClientFailed))
      else if s.down == [] && s.DownClosed() && s.client == AwaitingEof then Some(s.(client := ClientDone))
      else None
    case ClientFail =>
      if !s.UpClosed() then Some(s.(client := ClientFailed)) else None
  }

  /** A run: any interleaving of any steps. */
  ghost predicate IsRun(c: Config, states: seq<State>, steps: seq<Step>)
  {
    && |states| == |steps| + 1 && states[0] == Init(c)
    && forall k :: 0 <= k < |steps| ==> Apply(c, states[k], steps[k]) == Some(states[k + 1])
  }

  /** Neither party gives up on its own: no timeout, cancellation, broken transport or early close. */
  predicate NoFailures(steps: seq<Step>)
  {
    forall k :: 0 <= k < |steps| ==> !steps[k].ServerFail? && !steps[k].ClientFail?
  }

  // ----- What every step keeps -----

  predicate ReplyComplete(c: Config, s: State) { s.replyGot == c.reply }

  predicate MarkerSeen(s: State) { s.markerGot == Marker() }

  /** Bytes are conserved, and each phase says how far each side's parser has come. */
  ghost predicate Inv(c: Config, s: State)
  {
    && s.replyGot + s.markerGot + s.down + s.toSend == c.reply + Marker()
    && (s.server == Sending ==> s.toSend != [])
    && (s.server == AwaitingAck || s.server == ServerDone ==> s.toSend == [])
    && s.ackGot + s.up + s.toAck <= Ack() && |s.up| <= c.capacity
    && (s.ackGot + s.up != [] || s.toAck != [] ==> ReplyComplete(c, s) && MarkerSeen(s))
    && (s.server == Sending ==> s.ackGot == [])
    && (s.server == AwaitingAck ==> |s.ackGot| < |Ack()|)
    && (s.server == ServerDone ==> s.ackGot == Ack())
    && match s.client
       case Reading => |s.replyGot| < |c.reply| && s.markerGot == [] && s.ackGot == s.up == s.toAck == []
       case AwaitingMarker =>
         ReplyComplete(c, s) && |s.markerGot| < |Marker()| && s.ackGot == s.up == s.toAck == []
       case Acking => ReplyComplete(c, s) && MarkerSeen(s) && s.toAck != [] && s.ackGot + s.up + s.toAck == Ack()
       case AwaitingEof => ReplyComplete(c, s) && MarkerSeen(s) && s.toAck == [] && s.ackGot + s.up == Ack()
       case ClientDone => ReplyComplete(c, s) && MarkerSeen(s) && s.ackGot + s.up == Ack() && s.DownClosed()
       case ClientFailed => true
  }

  lemma MarkersParse()
    ensures ReadFrame(Marker(), MAX_EXCHANGE_MARKER_BYTES) == Done(TERMINAL_MARKER, [])
    ensures ReadFrame(Ack(), MAX_EXCHANGE_MARKER_BYTES) == Done(ACKNOWLEDGEMENT_MARKER, [])
  {
    FrameRoundTrip(TERMINAL_MARKER, [], MAX_EXCHANGE_MARKER_BYTES);
    FrameRoundTrip(ACKNOWLEDGEMENT_MARKER, [], MAX_EXCHANGE_MARKER_BYTES);
    assert Marker() + [] == Marker() && Ack() + [] == Ack();
  }

  /** A proper prefix of a frame starves its reader. */
  lemma FramePrefixStarves(frame: bytes, count: nat, payload: bytes)
    requires count < |frame| && ReadFrame(frame, MAX_EXCHANGE_MARKER_BYTES) == Done(payload, [])
    ensures ReadFrame(frame[..count], MAX_EXCHANGE_MARKER_BYTES) == Starved
  {
    hide ReadFrame;
    FrameDecided(frame[..count], frame[count..], MAX_EXCHANGE_MARKER_BYTES);
    assert frame[..count] + frame[count..] == frame;
  }

  lemma InitKeeps(c: Config)
    requires ConfigValid(c)
    ensures Inv(c, Init(c))
  {
    assert c.reply != [];
    assert [] + [] + [] + (c.reply + Marker()) == c.reply + Marker();
  }

  lemma ServerSendKeeps(c: Config, s: State, count: nat, t: State)
    requires Inv(c, s) && Apply(c, s, ServerSend(count)) == Some(t)
    ensures Inv(c, t)
  {
    hide ReadReply, ReadFrame;
    assert s.toSend == s.toSend[..count] + s.toSend[count..];
    assert t.replyGot + t.markerGot + t.down + t.toSend == s.replyGot + s.markerGot + s.down + s.toSend;
  }

  lemma ServerReceiveKeeps(c: Config, s: State, t: State)
    requires Inv(c, s) && Apply(c, s, ServerReceive) == Some(t)
    ensures Inv(c, t)
    ensures t.server != ServerFailed
  {
    hide ReadReply, ReadFrame;
    var got := s.ackGot + [s.up[0]];
    assert got + s.up[1..] == s.ackGot + s.up;
    assert got == Ack()[..|got|];
    MarkersParse();
    if |got| < |Ack()| {
      FramePrefixStarves(Ack(), |got|, ACKNOWLEDGEMENT_MARKER);
    } else {
      assert got == Ack();
    }
  }

  lemma ReplyByteKeeps(c: Config, s: State, t: State)
    requires ConfigValid(c) && Inv(c, s) && s.client == Reading && Apply(c, s, ClientReceive) == Some(t)
    ensures Inv(c, t)
    ensures t.client != ClientFailed
  {
    hide ReadReply, ReadFrame, ConfigValid, Marker, Ack, Inv;
    var got := s.replyGot + [s.down[0]];
    EarlyInv(c, s);
    assert got + (s.down[1..] + s.toSend) == s.replyGot + (s.down + s.toSend);
    PrefixOf(got, s.down[1..] + s.toSend, c.reply, Marker());
    ReplyByteStarvesOrCompletes(c, got);
    EarlyInv(c, t);
  }

  /** The invariant before anything is acknowledged and before the marker starts. */
  lemma EarlyInv(c: Config, s: State)
    ensures Inv(c, s) && s.client == Reading ==>
              && s.markerGot == [] && s.ackGot == s.up == s.toAck == [] && s.server != ServerDone && EarlyServer(s)
              && |s.replyGot| < |c.reply| && s.replyGot + (s.down + s.toSend) == c.reply + Marker()
    ensures (&& s.markerGot == [] && s.ackGot == s.up == s.toAck == [] && EarlyServer(s)
             && s.replyGot + (s.down + s.toSend) == c.reply + Marker()
             && if s.replyGot == c.reply then s.client == AwaitingMarker
                else s.client == Reading && |s.replyGot| < |c.reply|) ==>
              Inv(c, s)
  {
    hide ReadReply, ReadFrame;
    assert s.replyGot + [] + s.down + s.toSend == s.replyGot + (s.down + s.toSend);
  }

  predicate EarlyServer(s: State)
  {
    match s.server
    case Sending => s.toSend != []
    case AwaitingAck => s.toSend == []
    case ServerDone => false
    case ServerFailed => true
  }

  /** Equal concatenations: the shorter front is a prefix of the longer. */
  lemma PrefixOf(a: bytes, b: bytes, front: bytes, back: bytes)
    requires a + b == front + back && |a| <= |front|
    ensures a == front[..|a|]
  {
    assert a == (a + b)[..|a|] == (front + back)[..|a|];
  }

  lemma ReplyByteStarvesOrCompletes(c: Config, got: bytes)
    requires ConfigValid(c) && |got| <= |c.reply| && got == c.reply[..|got|]
    ensures |got| < |c.reply| ==> ReadReply(c.lib, c.codec, got).Starved?
    ensures |got| == |c.reply| ==> got == c.reply && ReadReply(c.lib, c.codec, got) == Done(c.delivery, [])
  {
    hide ReadReply;
    if |got| < |c.reply| {
      assert c.reply == got + c.reply[|got|..];
      PrefixStarves(c.lib, c.codec, got, c.reply[|got|..], c.delivery);
    }
  }

  lemma MarkerByteKeeps(c: Config, s: State, t: State)
    requires Inv(c, s) && s.client == AwaitingMarker && Apply(c, s, ClientReceive) == Some(t)
    ensures Inv(c, t)
    ensures t.client != ClientFailed
  {
    hide ReadReply, ReadFrame, Inv, Marker, Ack;
    var got := s.markerGot + [s.down[0]];
    MiddleInv(c, s);
    assert got + (s.down[1..] + s.toSend) == s.markerGot + (s.down + s.toSend);
    assert Marker() + [] == Marker();
    PrefixOf(got, s.down[1..] + s.toSend, Marker(), []);
    MarkersParse();
    if |got| < |Marker()| {
      FramePrefixStarves(Marker(), |got|, TERMINAL_MARKER);
    } else {
      assert got == Marker();
    }
    MiddleInv(c, t);
  }

  /** The invariant while the marker is read, and right after it. */
  lemma MiddleInv(c: Config, s: State)
    ensures Inv(c, s) && s.client == AwaitingMarker ==>
              && ReplyComplete(c, s) && s.ackGot == s.up == s.toAck == [] && EarlyServer(s)
              && |s.markerGot| < |Marker()| && s.markerGot + (s.down + s.toSend) == Marker()
    ensures (&& ReplyComplete(c, s) && s.ackGot == s.up == [] && EarlyServer(s)
             && s.markerGot + (s.down + s.toSend) == Marker()
             && if s.markerGot == Marker() then s.client == Acking && s.toAck == Ack()
                else s.client == AwaitingMarker && s.toAck == [] && |s.markerGot| < |Marker()|) ==>
              Inv(c, s)
  {
    hide ReadReply, ReadFrame;
    AfterReply(c.reply, s.markerGot, s.down, s.toSend, Marker());
    assert |Ack()| > 0;
    assert [] + [] + Ack() == Ack();
  }

  lemma AfterReply(reply: bytes, a: bytes, b: bytes, d: bytes, marker: bytes)
    ensures reply + a + b + d == reply + marker <==> a + (b + d) == marker
  {
    assert reply + a + b + d == reply + (a + (b + d));
    assert (reply + (a + (b + d)))[|reply|..] == a + (b + d) && (reply + marker)[|reply|..] == marker;
  }

  /** Once the client is past the marker, everything the server sends has been read. */
  lemma NothingInFlight(c: Config, s: State)
    requires Inv(c, s) && s.client in {Acking, AwaitingEof, ClientDone}
    ensures s.down == [] && s.toSend == []
  {
    assert |s.replyGot + s.markerGot| == |c.reply + Marker()|;
  }

  lemma ClientAckKeeps(c: Config, s: State, count: nat, t: State)
    requires Inv(c, s) && Apply(c, s, ClientAck(count)) == Some(t)
    ensures Inv(c, t)
  {
    hide ReadReply, ReadFrame;
    assert s.toAck == s.toAck[..count] + s.toAck[count..];
    assert t.ackGot + t.up + t.toAck == s.ackGot + s.up + s.toAck;
  }

  lemma StepKeeps(c: Config, s: State, step: Step, t: State)
    requires ConfigValid(c) && Inv(c, s) && Apply(c, s, step) == Some(t)
    ensures Inv(c, t)
  {
    hide ReadReply, ReadFrame;
    match step {
      case ServerSend(count) => ServerSendKeeps(c, s, count, t);
      case ServerReceive => ServerReceiveKeeps(c, s, t);
      case ServerSeesEof =>
      case ServerFail =>
      case ClientReceive =>
        if s.client == Reading {
          ReplyByteKeeps(c, s, t);
        } else if s.client == AwaitingMarker {
          MarkerByteKeeps(c, s, t);
        }
      case ClientAck(count) => ClientAckKeeps(c, s, count, t);
      case ClientSeesEof =>
      case ClientFail =>
    }
  }

  lemma {:induction false} RunKeeps(c: Config, states: seq<State>, steps: seq<Step>, k: nat)
    requires ConfigValid(c) && IsRun(c, states, steps) && k < |states|
    ensures Inv(c, states[k])
  {
    hide Inv, Apply, ConfigValid;
    if k == 0 {
      InitKeeps(c);
    } else {
      RunKeeps(c, states, steps, k - 1);
      StepKeeps(c, states[k - 1], steps[k - 1], states[k]);
    }
  }

  // ----- Safety -----

  /** In every run, a server that succeeded was acknowledged by a client that had read the whole response
      (so every digest matched) and then the terminal marker. */
  lemma ServerSuccessMeansDelivered(c: Config, states: seq<State>, steps: seq<Step>, k: nat)
    requires ConfigValid(c) && IsRun(c, states, steps) && k < |states| && states[k].server == ServerDone
    ensures ReadReply(c.lib, c.codec, states[k].replyGot) == Done(c.delivery, [])
    ensures ReadFrame(states[k].markerGot, MAX_EXCHANGE_MARKER_BYTES) == Done(TERMINAL_MARKER, [])
  {
    hide ReadReply, ReadFrame;
    RunKeeps(c, states, steps, k);
    MarkersParse();
  }

  /** In every run, a client that succeeded read the response, the marker, and then the end of the stream
      with nothing in between; its acknowledgement had gone out in full. */
  lemma ClientSuccessMeansComplete(c: Config, states: seq<State>, steps: seq<Step>, k: nat)
    requires ConfigValid(c) && IsRun(c, states, steps) && k < |states| && states[k].client == ClientDone
    ensures ReadReply(c.lib, c.codec, states[k].replyGot) == Done(c.delivery, [])
    ensures ReadFrame(states[k].markerGot, MAX_EXCHANGE_MARKER_BYTES) == Done(TERMINAL_MARKER, [])
    ensures states[k].down == [] && states[k].toSend == [] && states[k].DownClosed()
    ensures states[k].ackGot + states[k].up == Ack()
  {
    hide ReadReply, ReadFrame;
    RunKeeps(c, states, steps, k);
    NothingInFlight(c, states[k]);
    MarkersParse();
  }

  /** In every run, the client succeeds, which is when it commits its artifacts, in one step only: on seeing the
      end of a stream of which it has read the whole response and the marker. */
  lemma CommitsOnlyAtEnd(c: Config, states: seq<State>, steps: seq<Step>, k: nat)
    requires ConfigValid(c) && IsRun(c, states, steps) && k < |steps|
    requires states[k].client != ClientDone && states[k + 1].client == ClientDone
    ensures steps[k] == ClientSeesEof && states[k].client == AwaitingEof
    ensures states[k].down == [] && states[k].DownClosed() && ReplyComplete(c, states[k]) && MarkerSeen(states[k])
  {
    hide ReadReply, ReadFrame;
    RunKeeps(c, states, steps, k);
  }

  // ----- Progress -----

  predicate Finished(s: State) { s.server == ServerDone && s.client == ClientDone }

  predicate Unfailed(s: State) { s.server != ServerFailed && s.client != ClientFailed }

  predicate GivesUp(step: Step) { step.ServerFail? || step.ClientFail? }

  /** No step but giving up makes a party fail. */
  lemma HonestStepStaysUnfailed(c: Config, s: State, step: Step, t: State)
    requires ConfigValid(c) && Inv(c, s) && Unfailed(s) && !GivesUp(step) && Apply(c, s, step) == Some(t)
    ensures Unfailed(t)
  {
    hide ReadReply, ReadFrame;
    match step {
      case ServerReceive => ServerReceiveKeeps(c, s, t);
      case ClientReceive =>
        if s.client == Reading {
          ReplyByteKeeps(c, s, t);
        } else if s.client == AwaitingMarker {
          MarkerByteKeeps(c, s, t);
        } else {
          NothingInFlight(c, s);
          assert false;
        }
      case _ =>
    }
  }

  /** Two parties that have not failed are finished, or one of them can move. */
  lemma NeverDeadlocked(c: Config, s: State) returns (step: Step)
    requires ConfigValid(c) && Inv(c, s) && Unfailed(s) && !Finished(s)
    ensures !GivesUp(step) && Apply(c, s, step).Some?
  {
    hide ReadReply, ReadFrame;
    var beyond := s.client in {Acking, AwaitingEof, ClientDone};
    if beyond {
      NothingInFlight(c, s);
    }
    match s.server {
      case Sending => step := if |s.down| < c.capacity then ServerSend(1) else ClientReceive;
      case AwaitingAck =>
        if s.up != [] {
          step := ServerReceive;
        } else if beyond {
          step := ClientAck(1);
        } else {
          assert |s.replyGot + s.markerGot| < |c.reply + Marker()|;
          step := ClientReceive;
        }
      case ServerDone => step := ClientSeesEof;
    }
  }

  function ServerRank(phase: ServerPhase): nat
  {
    match phase case Sending => 2 case AwaitingAck => 1 case _ => 0
  }

  function ClientRank(phase: ClientPhase): nat
  {
    match phase case Reading => 4 case AwaitingMarker => 3 case Acking => 2 case AwaitingEof => 1 case _ => 0
  }

  /** What is still to be done: bytes count twice until sent, and the acknowledgement counts before it exists. */
  function Remaining(s: State): nat
  {
    2 * |s.toSend| + |s.down| + |s.up| + ServerRank(s.server) + ClientRank(s.client)
    + if s.client == Reading || s.client == AwaitingMarker then 2 * |Ack()| else 2 * |s.toAck|
  }

  predicate AckPending(s: State)
  {
    s.client == Reading || s.client == AwaitingMarker ==> s.toAck == []
  }

  lemma ServerStepShrinks(c: Config, s: State, step: Step, t: State)
    requires step.ServerSend? || step.ServerReceive? || step.ServerSeesEof? || step.ServerFail?
    requires Apply(c, s, step) == Some(t)
    ensures Remaining(t) < Remaining(s)
  {
    hide ReadReply, ReadFrame, Ack;
    assert step.ServerSend? ==> |t.toSend| == |s.toSend| - step.count && |t.down| == |s.down| + step.count;
  }

  lemma ClientStepShrinks(c: Config, s: State, step: Step, t: State)
    requires step.ClientReceive? || step.ClientAck? || step.ClientSeesEof? || step.ClientFail?
    requires AckPending(s) && Apply(c, s, step) == Some(t)
    ensures Remaining(t) < Remaining(s)
  {
    hide ReadReply, ReadFrame, Ack;
    assert step.ClientAck? ==> |t.toAck| == |s.toAck| - step.count && |t.up| == |s.up| + step.count;
  }

  /** Every step, of either party and failing or not, leaves less to do. */
  lemma StepShrinks(c: Config, s: State, step: Step, t: State)
    requires Inv(c, s) && Apply(c, s, step) == Some(t)
    ensures Remaining(t) < Remaining(s)
  {
    hide ReadReply, ReadFrame, Remaining, Apply;
    assert AckPending(s);
    if step.ServerSend? || step.ServerReceive? || step.ServerSeesEof? || step.ServerFail? {
      ServerStepShrinks(c, s, step, t);
    } else {
      ClientStepShrinks(c, s, step, t);
    }
  }

  lemma {:induction false} RunShrinks(c: Config, states: seq<State>, steps: seq<Step>, k: nat)
    requires ConfigValid(c) && IsRun(c, states, steps) && k < |states|
    ensures k + Remaining(states[k]) <= Remaining(Init(c))
    ensures NoFailures(steps) ==> Unfailed(states[k])
  {
    hide Inv, Apply, ConfigValid, Remaining;
    if k > 0 {
      RunShrinks(c, states, steps, k - 1);
      RunKeeps(c, states, steps, k - 1);
      StepShrinks(c, states[k - 1], steps[k - 1], states[k]);
      if NoFailures(steps) {
        HonestStepStaysUnfailed(c, states[k - 1], steps[k - 1], states[k]);
      }
    }
  }

  /** Two honest parties never deadlock: runs are bounded, and one without failures that has not finished
      yet can always go on; so it can only stop when both have succeeded. */
  lemma HonestRunsFinish(c: Config, states: seq<State>, steps: seq<Step>)
    requires ConfigValid(c) && IsRun(c, states, steps) && NoFailures(steps)
    ensures |steps| <= Remaining(Init(c))
    ensures Finished(states[|steps|]) || exists step :: !GivesUp(step) && Apply(c, states[|steps|], step).Some?
  {
    hide ReadReply, ReadFrame, Inv;
    RunShrinks(c, states, steps, |steps|);
    RunKeeps(c, states, steps, |steps|);
    if !Finished(states[|steps|]) {
      var step := NeverDeadlocked(c, states[|steps|]);
    }
  }

  // ----- The runs in which only the client succeeds -----

  lemma ExtendRun(c: Config, states: seq<State>, steps: seq<Step>, step: Step, t: State)
    requires IsRun(c, states, steps) && Apply(c, states[|steps|], step) == Some(t)
    ensures IsRun(c, states + [t], steps + [step])
  {
    hide Apply, Init;
  }

  predicate BeforeEof(s: State) { s.client in {Reading, AwaitingMarker, Acking} }

  /** The step after which the client waits for the end of the stream: the server is still waiting for the
      acknowledgement that the client has just finished sending. */
  lemma FirstAwaitsEof(c: Config, s: State, step: Step, t: State)
    requires ConfigValid(c) && Inv(c, s) && Unfailed(s) && BeforeEof(s) && !GivesUp(step)
    requires Apply(c, s, step) == Some(t)
    ensures BeforeEof(t) || (t.client == AwaitingEof && t.server == AwaitingAck)
  {
    HonestStepStaysUnfailed(c, s, step, t);
    hide ReadReply, ReadFrame;
    if t.client == AwaitingEof { NothingInFlight(c, s); }
  }

  /** Two honest parties get to where the client has acknowledged everything and the server has not read it. */
  lemma {:induction false} ReachAwaitingEof(c: Config, states: seq<State>, steps: seq<Step>)
    returns (longer: seq<State>, more: seq<Step>)
    requires ConfigValid(c) && IsRun(c, states, steps) && Unfailed(states[|steps|]) && BeforeEof(states[|steps|])
    ensures IsRun(c, longer, more) && longer[|more|].client == AwaitingEof && longer[|more|].server == AwaitingAck
    decreases Remaining(states[|steps|])
  {
    hide Inv, Apply, ConfigValid, Remaining, Init;
    var s := states[|steps|];
    RunKeeps(c, states, steps, |steps|);
    var step := NeverDeadlocked(c, s);
    var t := Apply(c, s, step).value;
    ExtendRun(c, states, steps, step, t);
    StepShrinks(c, s, step, t);
    HonestStepStaysUnfailed(c, s, step, t);
    FirstAwaitsEof(c, s, step, t);
    longer, more := states + [t], steps + [step];
    if BeforeEof(t) { longer, more := ReachAwaitingEof(c, longer, more); }
  }

  /** The converse of safety fails, whatever is sent and however little the channels hold: in some run the server
      gives up while it waits for an acknowledgement that is already on its way, and the client still succeeds. */
  lemma ClientMaySucceedAlone(c: Config) returns (states: seq<State>, steps: seq<Step>)
    requires ConfigValid(c)
    ensures IsRun(c, states, steps)
    ensures states[|steps|].server == ServerFailed && states[|steps|].client == ClientDone
  {
    hide Inv, Apply, ConfigValid, Remaining;
    states, steps := ReachAwaitingEof(c, [Init(c)], []);
    var s := states[|steps|];
    RunKeeps(c, states, steps, |steps|);
    NothingInFlight(c, s);
    var t := s.(server := ServerFailed);
    GiveUpThenEof(c, s);
    ExtendRun(c, states, steps, ServerFail, t);
    states, steps := states + [t], steps + [ServerFail];
    ExtendRun(c, states, steps, ClientSeesEof, t.(client := ClientDone));
    states, steps := states + [t.(client := ClientDone)], steps + [ClientSeesEof];
  }

  lemma GiveUpThenEof(c: Config, s: State)
    requires s.server == AwaitingAck && s.client == AwaitingEof && s.down == []
    ensures var t := s.(server := ServerFailed);
            Apply(c, s, ServerFail) == Some(t) && Apply(c, t, ClientSeesEof) == Some(t.(client := ClientDone))
  {
  }

  /** With an acknowledging client, nothing but its own giving up makes the server fail. */
  lemma OnlyGivingUpFails(c: Config, s: State, step: Step, t: State)
    requires ConfigValid(c) && Inv(c, s) && Apply(c, s, step) == Some(t)
    requires s.server != ServerFailed && t.server == ServerFailed && step != ServerFail
    ensures s.client == ClientFailed && t.client == ClientFailed
  {
    hide ReadReply, ReadFrame;
    if step == ServerReceive { ServerReceiveKeeps(c, s, t); }
  }

  /** What a server that has failed leaves behind stays. */
  lemma FailedStays(c: Config, s: State, step: Step, t: State)
    requires Apply(c, s, step) == Some(t)
    ensures s.server == ServerFailed ==> t.server == ServerFailed && t.toSend == s.toSend && t.ackGot == s.ackGot
    ensures s.client == ClientFailed ==> t.client == ClientFailed
    ensures s.client == ClientDone ==> t.client == ClientDone
    ensures s.server == ServerDone ==> t.server == ServerDone
  {
    hide ReadReply, ReadFrame;
  }

  lemma {:induction false} FailureGivenUp(c: Config, states: seq<State>, steps: seq<Step>, k: nat) returns (j: nat)
    requires ConfigValid(c) && IsRun(c, states, steps) && k < |states|
    requires states[k].server == ServerFailed && states[k].client != ClientFailed
    ensures j < k && steps[j] == ServerFail && states[j + 1].toSend == states[k].toSend
  {
    hide Inv, Apply, ConfigValid;
    var s, t := states[k - 1], states[k];
    RunKeeps(c, states, steps, k - 1);
    FailedStays(c, s, steps[k - 1], t);
    if s.server == ServerFailed {
      j := FailureGivenUp(c, states, steps, k - 1);
    } else {
      if steps[k - 1] != ServerFail { OnlyGivingUpFails(c, s, steps[k - 1], t); }
      j := k - 1;
    }
  }

  lemma {:induction false} FailedForGood(c: Config, states: seq<State>, steps: seq<Step>, i: nat, k: nat)
    requires IsRun(c, states, steps) && i <= k < |states| && states[i].server == ServerFailed
    ensures states[k].server == ServerFailed && states[k].toSend == states[i].toSend
    ensures states[k].ackGot == states[i].ackGot
    ensures states[i].client == ClientFailed ==> states[k].client == ClientFailed
    decreases k - i
  {
    hide Apply;
    if i < k {
      FailedForGood(c, states, steps, i, k - 1);
      FailedStays(c, states[k - 1], steps[k - 1], states[k]);
    }
  }

  /** In every run with a client that has succeeded, the server has failed exactly if it gave up; and it can only have
      given up while it waited for the acknowledgement, with everything sent. */
  lemma AloneMeansGivenUp(c: Config, states: seq<State>, steps: seq<Step>, k: nat)
    requires ConfigValid(c) && IsRun(c, states, steps) && k < |states| && states[k].client == ClientDone
    ensures states[k].server == ServerFailed <==> exists j :: 0 <= j < k && steps[j] == ServerFail
    ensures forall j :: 0 <= j < k && steps[j] == ServerFail ==> states[j].server == AwaitingAck
  {
    hide Inv, Apply, ConfigValid;
    RunKeeps(c, states, steps, k);
    NothingInFlight(c, states[k]);
    forall j | 0 <= j < k && steps[j] == ServerFail
      ensures states[k].server == ServerFailed && states[j].server == AwaitingAck
    {
      RunKeeps(c, states, steps, j);
      GaveUpAt(c, states[j], states[j + 1]);
      FailedForGood(c, states, steps, j + 1, k);
    }
    if states[k].server == ServerFailed {
      var j := FailureGivenUp(c, states, steps, k);
    }
  }

  lemma GaveUpAt(c: Config, s: State, t: State)
    requires Inv(c, s) && Apply(c, s, ServerFail) == Some(t)
    ensures t.server == ServerFailed && t.toSend == s.toSend && (t.toSend == [] ==> s.server == AwaitingAck)
  {
  }

  /** A client whose server has failed can still succeed: it has not failed itself, everything had been sent, and
      what the server has not read of the acknowledgement fits the channel. */
  predicate CanSucceedAlone(c: Config, s: State)
  {
    s.client != ClientFailed && s.toSend == [] && |Ack()| - |s.ackGot| <= c.capacity
  }

  lemma SuccessFits(c: Config, s: State)
    requires Inv(c, s) && s.client == ClientDone
    ensures CanSucceedAlone(c, s)
  {
    NothingInFlight(c, s);
    assert |s.ackGot + s.up| == |Ack()|;
  }

  /** One more step of a client that can still succeed. */
  lemma NextAlone(c: Config, s: State) returns (step: Step, t: State)
    requires ConfigValid(c) && Inv(c, s) && s.server == ServerFailed && CanSucceedAlone(c, s) && s.client != ClientDone
    ensures Apply(c, s, step) == Some(t) && t.server == ServerFailed && CanSucceedAlone(c, t)
  {
    hide ReadReply, ReadFrame;
    match s.client {
      case Reading =>
        assert |s.replyGot + s.markerGot| < |c.reply + Marker()|;
        step := ClientReceive;
        t := Apply(c, s, step).value;
        ReplyByteKeeps(c, s, t);
      case AwaitingMarker =>
        assert |s.replyGot + s.markerGot| < |c.reply + Marker()|;
        step := ClientReceive;
        t := Apply(c, s, step).value;
        MarkerByteKeeps(c, s, t);
      case Acking =>
        assert |s.ackGot + s.up + s.toAck| == |Ack()|;
        step := ClientAck(|s.toAck|);
        t := Apply(c, s, step).value;
      case AwaitingEof =>
        NothingInFlight(c, s);
        step := ClientSeesEof;
        t := Apply(c, s, step).value;
    }
  }

  ghost predicate SucceedsLater(c: Config, states: seq<State>, steps: seq<Step>, longer: seq<State>, more: seq<Step>)
  {
    IsRun(c, longer, more) && states <= longer && steps <= more && longer[|more|].client == ClientDone
  }

  lemma {:induction false} FinishAlone(c: Config, states: seq<State>, steps: seq<Step>)
    returns (longer: seq<State>, more: seq<Step>)
    requires ConfigValid(c) && IsRun(c, states, steps)
    requires states[|steps|].server == ServerFailed && CanSucceedAlone(c, states[|steps|])
    ensures SucceedsLater(c, states, steps, longer, more)
    decreases Remaining(states[|steps|])
  {
    hide Inv, Apply, ConfigValid, Remaining, Init, CanSucceedAlone;
    longer, more := states, steps;
    var s := states[|steps|];
    if s.client != ClientDone {
      RunKeeps(c, states, steps, |steps|);
      var step, t := NextAlone(c, s);
      ExtendRun(c, states, steps, step, t);
      StepShrinks(c, s, step, t);
      longer, more := FinishAlone(c, states + [t], steps + [step]);
    }
  }

  /** After the server failed, from exactly these states some continuation of the run ends with a client that
      succeeded. */
  lemma WhenClientSucceedsAlone(c: Config, states: seq<State>, steps: seq<Step>)
    requires ConfigValid(c) && IsRun(c, states, steps) && states[|steps|].server == ServerFailed
    ensures (exists longer, more :: SucceedsLater(c, states, steps, longer, more))
       <==> CanSucceedAlone(c, states[|steps|])
  {
    hide Inv, Apply, ConfigValid, Remaining, Init;
    if CanSucceedAlone(c, states[|steps|]) {
      var longer, more := FinishAlone(c, states, steps);
    }
    if longer, more :| SucceedsLater(c, states, steps, longer, more) {
      assert longer[|steps|] == states[|steps|];
      RunKeeps(c, longer, more, |more|);
      SuccessFits(c, longer[|more|]);
      FailedForGood(c, longer, more, |steps|, |more|);
    }
  }
}
