/** internal/executionrun/background.go: the registry of background processes as atomic steps, one for each
    lock region or channel operation, interleaved in every way. */
module Background {
  import opened Protocol

  const MAX_BACKGROUND_PROCESSES := 32

  /** `timed_out` is TimeExpired here, `runtime_failed` RuntimeFailure. */
  datatype ProcessState = Running | Exited | Stopped | TimeExpired | RuntimeFailure

  /** A result off the exit channel. */
  datatype Exit = Exit(code: int, runtimeError: bool)

  /** The fields behind the entry's mutex, its finishOnce, and how often its done channel has been closed. */
  datatype Guarded = Guarded(
    state: ProcessState, reason: Option<ProcessState>, exitCode: Option<int>, finishedAt: Option<int>,
    finishUsed: bool, closes: nat)

  const FRESH_STATUS := Guarded(Running, None, None, None, false, 0)

  /** setReason: the first reason stays. */
  function WithReason(status: Guarded, reason: ProcessState): Guarded
  {
    if status.reason.None? then status.(reason := Some(reason)) else status
  }

  function ReasonOr(status: Guarded, fallback: ProcessState): ProcessState
  {
    if status.reason.Some? then status.reason.value else fallback
  }

  /** The lock region of finish; the channel is closed after it. */
  function Settled(status: Guarded, state: ProcessState, exitCode: Option<int>, now: int): Guarded
  {
    status.(state := state, finishedAt := Some(now), finishUsed := true,
            exitCode := if exitCode.Some? then exitCode else status.exitCode)
  }

  // ----- Entries and their monitors -----

  /** Where an entry's monitor goroutine is. */
  datatype Monitor =
    | Unspawned
    | Selecting
    | GotExit(exit: Option<Exit>)
    | TimerFired
    | Terminating
    | AwaitingExit(reason: ProcessState)
    | Finishing(final: ProcessState, code: Option<int>)
    | ClosingDone
    | Ended

  datatype Entry = Entry(session: string, process: string, workingDirectory: string, status: Guarded, monitor: Monitor)

  datatype MonitorAct =
    | Spawn | NoExitChannel | NoTimer
    | ReceiveExit(exit: Option<Exit>) | ReadReason | ReceiveTimer | SetTimedOut
    | Terminate(ok: bool) | ReceiveLateExit(exit: Option<Exit>)
    | Settle(now: int) | CloseDone

  predicate ExitUsable(exit: Option<Exit>)
  {
    exit.Some? && !exit.value.runtimeError && 0 <= exit.value.code <= MAX_EXIT_CODE
  }

  /** Which state the monitor will finish with after an exit. */
  function AfterExit(exit: Option<Exit>, state: ProcessState): Monitor
  {
    if ExitUsable(exit) then Finishing(state, Some(exit.value.code)) else Finishing(RuntimeFailure, None)
  }

  /** monitorBackground, one atomic step at a time. */
  function MonitorNext(e: Entry, act: MonitorAct): Option<Entry>
  {
    match (act, e.monitor)
    case (Spawn, Unspawned) => Some(e.(monitor := Selecting))
    case (NoExitChannel, Selecting) => Some(e.(monitor := Finishing(RuntimeFailure, None)))
    case (NoTimer, Selecting) => Some(e.(monitor := Finishing(RuntimeFailure, None)))
    case (ReceiveExit(exit), Selecting) => Some(e.(monitor := GotExit(exit)))
    case (ReadReason, GotExit(exit)) => Some(e.(monitor := AfterExit(exit, ReasonOr(e.status, Exited))))
    case (ReceiveTimer, Selecting) => Some(e.(monitor := TimerFired))
    case (SetTimedOut, TimerFired) =>
      var status := WithReason(e.status, TimeExpired);
      Some(e.(status := status,
              monitor := if status.reason == Some(TimeExpired) then Terminating else AwaitingExit(status.reason.value)))
    case (Terminate(ok), Terminating) =>
      Some(e.(monitor := Finishing(if ok then TimeExpired else RuntimeFailure, None)))
    case (ReceiveLateExit(exit), AwaitingExit(reason)) => Some(e.(monitor := AfterExit(exit, reason)))
    case (Settle(now), Finishing(final, code)) =>
      if e.status.finishUsed then Some(e.(monitor := Ended))
      else Some(e.(status := Settled(e.status, final, code, now), monitor := ClosingDone))
    case (CloseDone, ClosingDone) => Some(e.(status := e.status.(closes := e.status.closes + 1), monitor := Ended))
    case _ => None
  }

  predicate CodeFits(state: ProcessState, code: Option<int>)
  {
    if state == Exited || state == Stopped then code.Some? && 0 <= code.value <= MAX_EXIT_CODE else code.None?
  }

  predicate ReasonFits(state: ProcessState, reason: Option<ProcessState>)
  {
    && (state == Stopped || state == TimeExpired ==> reason == Some(state))
    && (state == Exited ==> reason != Some(TimeExpired))
  }

  /** What holds of an entry between any two steps. */
  predicate EntryInv(e: Entry)
  {
    && (e.status.reason.Some? ==> e.status.reason.value in {Stopped, TimeExpired})
    && (e.status.reason == Some(TimeExpired) ==>
        !(e.monitor in {Unspawned, Selecting, TimerFired}) && !e.monitor.GotExit?)
    && (e.status.state == Running <==> !e.monitor.ClosingDone? && !e.monitor.Ended?)
    && e.status.finishUsed == (e.status.state != Running)
    && e.status.finishedAt.Some? == (e.status.state != Running)
    && e.status.closes == (if e.monitor.Ended? then 1 else 0)
    && CodeFits(e.status.state, e.status.exitCode) && ReasonFits(e.status.state, e.status.reason)
    && match e.monitor
       case Terminating => e.status.reason == Some(TimeExpired)
       case AwaitingExit(reason) => reason == Stopped && e.status.reason == Some(Stopped)
       case Finishing(final, code) => final != Running && CodeFits(final, code) && ReasonFits(final, e.status.reason)
       case _ => true
  }

  /** What no step, however interleaved, takes back. */
  predicate Evolves(e: Entry, f: Entry)
  {
    && f.session == e.session && f.process == e.process && f.workingDirectory == e.workingDirectory
    && (e.status.reason.Some? ==> f.status.reason == e.status.reason)
    && (e.status.state != Running ==>
          && f.status.state == e.status.state && f.status.exitCode == e.status.exitCode
          && f.status.finishedAt == e.status.finishedAt)
    && e.status.closes <= f.status.closes
  }

  lemma MonitorKeeps(e: Entry, act: MonitorAct, f: Entry)
    requires EntryInv(e) && MonitorNext(e, act) == Some(f)
    ensures EntryInv(f) && Evolves(e, f)
  {
  }

  /** A stop or a close marks the entry; it never reaches into the monitor. */
  lemma ReasonKeeps(e: Entry)
    requires EntryInv(e)
    ensures var f := e.(status := WithReason(e.status, Stopped));
            EntryInv(f) && Evolves(e, f) && f.status.reason.Some?
  {
  }

  /** How many moves a monitor can still make. */
  function Rank(monitor: Monitor): nat
  {
    match monitor
    case Unspawned => 6
    case Selecting => 5
    case TimerFired => 4
    case GotExit(_) => 3
    case Terminating => 3
    case AwaitingExit(_) => 3
    case Finishing(_, _) => 2
    case ClosingDone => 1
    case Ended => 0
  }

  /** Every move brings a monitor closer to its end. */
  lemma MonitorDescends(e: Entry, act: MonitorAct, f: Entry)
    requires MonitorNext(e, act) == Some(f)
    ensures Rank(f.monitor) < Rank(e.monitor)
  {
  }

  // ----- The registry and its callers -----

  datatype StopPhase =
    | Finding | Checking(id: nat) | Marking(id: nat) | TerminatingTree(id: nat) | AwaitingDone(id: nat)
    | Removing(id: nat) | StopReturned(id: nat) | StopFailed

  datatype ClosePhase = Snapshotting | CheckingNext | MarkingNext | TerminatingNext | AwaitingNext | CloseReturned

  datatype Call =
    | StopCall(session: string, process: string, workingDirectory: string, stop: StopPhase)
    | CloseCall(snapshot: seq<nat>, index: nat, close: ClosePhase, failed: bool)

  /** Entries by order of creation; the registry names the current one of each key. */
  datatype State = State(entries: seq<Entry>, registry: map<string, nat>, calls: seq<Call>)

  datatype StopAct = Find | Check | Mark | TerminateTree(ok: bool) | Wake | Cancel | Remove

  datatype CloseAct =
    | TakeSnapshot(order: seq<nat>) | CheckNext | MarkNext | TerminateNext(ok: bool) | WakeNext | CancelNext

  datatype Step =
    | Start(session: string, process: string, workingDirectory: string)
    | MonitorStep(id: nat, act: MonitorAct)
    | CallStop(session: string, process: string, workingDirectory: string)
    | CallClose
    | StopStep(call: nat, stopAct: StopAct)
    | CloseStep(call: nat, closeAct: CloseAct)

  const INITIAL := State([], map[], [])

  /** backgroundKey: what is registered under a session and a process. */
  function BackgroundKey(session: string, process: string): string { BundleKey(session, process) }

  function KeyOf(e: Entry): string { BackgroundKey(e.session, e.process) }

  function WithCall(s: State, c: nat, call: Call): State
    requires c < |s.calls|
  {
    s.(calls := s.calls[c := call])
  }

  function Marked(s: State, id: nat): State
    requires id < |s.entries|
  {
    s.(entries := s.entries[id := s.entries[id].(status := WithReason(s.entries[id].status, Stopped))])
  }

  /** removeBackground deletes the key only while it still names the expected entry. */
  function Unregistered(registry: map<string, nat>, key: string, expected: nat): map<string, nat>
  {
    if key in registry && registry[key] == expected then registry - {key} else registry
  }

  function Registered(s: State, session: string, process: string, workingDirectory: string): Option<nat>
  {
    var key := BackgroundKey(session, process);
    if key in s.registry && s.registry[key] < |s.entries|
       && s.entries[s.registry[key]].workingDirectory == workingDirectory then Some(s.registry[key])
    else None
  }

  /** stopBackground, one lock region or channel operation at a time. */
  function StopNext(s: State, c: nat, act: StopAct): Option<State>
    requires c < |s.calls| && s.calls[c].StopCall?
  {
    var call := s.calls[c];
    match (act, call.stop)
    case (Find, Finding) =>
      var found := Registered(s, call.session, call.process, call.workingDirectory);
      Some(WithCall(s, c, call.(stop := if found.Some? then Checking(found.value) else StopFailed)))
    case (Check, Checking(id)) =>
      if id >= |s.entries| then None
      else Some(WithCall(s, c,
                         call.(stop := if s.entries[id].status.state == Running then Marking(id) else Removing(id))))
    case (Mark, Marking(id)) =>
      if id >= |s.entries| then None
      else Some(WithCall(Marked(s, id), c, call.(stop := TerminatingTree(id))))
    case (TerminateTree(ok), TerminatingTree(id)) =>
      Some(WithCall(s, c, call.(stop := if ok then AwaitingDone(id) else StopFailed)))
    case (Wake, AwaitingDone(id)) =>
      if id < |s.entries| && s.entries[id].status.closes > 0 then Some(WithCall(s, c, call.(stop := Removing(id))))
      else None
    case (Cancel, AwaitingDone(id)) => Some(WithCall(s, c, call.(stop := StopFailed)))
    case (Remove, Removing(id)) =>
      Some(WithCall(s.(registry := Unregistered(s.registry, BackgroundKey(call.session, call.process), id)), c,
                    call.(stop := StopReturned(id))))
    case _ => None
  }

  /** The registry's entries in the order a map iteration happens to take. */
  predicate IsOrderOf(order: seq<nat>, registry: map<string, nat>)
  {
    && (forall k :: 0 <= k < |order| ==> order[k] in registry.Values)
    && (forall key :: key in registry ==> registry[key] in order)
  }

  /** Close, one lock region or channel operation at a time. */
  function CloseNext(s: State, c: nat, act: CloseAct): Option<State>
    requires c < |s.calls| && s.calls[c].CloseCall?
  {
    var call := s.calls[c];
    if act.TakeSnapshot? then
      if call.close == Snapshotting && IsOrderOf(act.order, s.registry) then
        Some(WithCall(s, c, CloseCall(act.order, 0, CheckingNext, false)))
      else None
    else if call.index >= |call.snapshot| then
      if act.CheckNext? && call.close == CheckingNext then Some(WithCall(s, c, call.(close := CloseReturned))) else None
    else if call.snapshot[call.index] >= |s.entries| then None
    else
      var id := call.snapshot[call.index];
      var next := call.(index := call.index + 1, close := CheckingNext);
      match (act, call.close)
      case (CheckNext, CheckingNext) =>
        Some(WithCall(s, c, if s.entries[id].status.state == Running then call.(close := MarkingNext) else next))
      case (MarkNext, MarkingNext) => Some(WithCall(Marked(s, id), c, call.(close := TerminatingNext)))
      case (TerminateNext(ok), TerminatingNext) =>
        Some(WithCall(s, c, if ok then call.(close := AwaitingNext) else next.(failed := true)))
      case (WakeNext, AwaitingNext) => if s.entries[id].status.closes > 0 then Some(WithCall(s, c, next)) else None
      case (CancelNext, AwaitingNext) => Some(WithCall(s, c, next.(failed := true)))
      case _ => None
  }

  /** startBackground's lock region, when it admits the process. */
  function Started(s: State, session: string, process: string, workingDirectory: string): Option<State>
  {
    var key := BackgroundKey(session, process);
    if key in s.registry || |s.registry| >= MAX_BACKGROUND_PROCESSES then None
    else
      Some(s.(entries := s.entries + [Entry(session, process, workingDirectory, FRESH_STATUS, Unspawned)],
              registry := s.registry[key := |s.entries|]))
  }

  function Apply(s: State, step: Step): Option<State>
  {
    match step
    case Start(session, process, workingDirectory) => Started(s, session, process, workingDirectory)
    case MonitorStep(id, act) =>
      if id >= |s.entries| then None
      else
        var next := MonitorNext(s.entries[id], act);
        if next.None? then None else Some(s.(entries := s.entries[id := next.value]))
    case CallStop(session, process, workingDirectory) =>
      Some(s.(calls := s.calls + [StopCall(session, process, workingDirectory, Finding)]))
    case CallClose => Some(s.(calls := s.calls + [CloseCall([], 0, Snapshotting, false)]))
    case StopStep(c, act) => if c < |s.calls| && s.calls[c].StopCall? then StopNext(s, c, act) else None
    case CloseStep(c, act) => if c < |s.calls| && s.calls[c].CloseCall? then CloseNext(s, c, act) else None
  }

  ghost predicate IsRun(states: seq<State>, steps: seq<Step>)
  {
    && |states| == |steps| + 1 && states[0] == INITIAL
    && forall k :: 0 <= k < |steps| ==> Apply(states[k], steps[k]) == Some(states[k + 1])
  }

  // ----- What every step keeps -----

  ghost predicate EntriesOk(s: State)
  {
    forall i :: 0 <= i < |s.entries| ==> EntryInv(s.entries[i])
  }

  ghost predicate RegistryOk(s: State)
  {
    && |s.registry| <= MAX_BACKGROUND_PROCESSES
    && (forall key :: key in s.registry ==> s.registry[key] < |s.entries| && KeyOf(s.entries[s.registry[key]]) == key)
    && (forall i :: 0 <= i < |s.entries| && s.entries[i].status.state == Running ==>
          KeyOf(s.entries[i]) in s.registry && s.registry[KeyOf(s.entries[i])] == i)
  }

  predicate Over(s: State, id: nat) { id < |s.entries| && s.entries[id].status.state != Running }

  ghost predicate StopOk(s: State, call: Call)
    requires call.StopCall?
  {
    call.stop.Finding? || call.stop.StopFailed? ||
    (&& call.stop.id < |s.entries| && KeyOf(s.entries[call.stop.id]) == BackgroundKey(call.session, call.process)
     && (call.stop.Removing? || call.stop.StopReturned? ==> Over(s, call.stop.id))
     && (call.stop.StopReturned? ==> forall key :: key in s.registry ==> s.registry[key] != call.stop.id))
  }

  ghost predicate CloseOk(s: State, call: Call)
    requires call.CloseCall?
  {
    && call.index <= |call.snapshot|
    && (forall k :: 0 <= k < |call.snapshot| ==> call.snapshot[k] < |s.entries|)
    && (!call.failed ==> forall k :: 0 <= k < call.index ==> Over(s, call.snapshot[k]))
    && (call.close == CloseReturned ==> call.index == |call.snapshot|)
  }

  ghost predicate CallOk(s: State, call: Call)
  {
    if call.StopCall? then StopOk(s, call) else CloseOk(s, call)
  }

  ghost predicate CallsOk(s: State)
  {
    forall c :: 0 <= c < |s.calls| ==> CallOk(s, s.calls[c])
  }

  ghost predicate Inv(s: State) { EntriesOk(s) && RegistryOk(s) && CallsOk(s) }

  /** From one state to a later one: entries evolve, and no key comes to name an old entry. */
  ghost predicate Grows(s: State, t: State)
  {
    && |s.entries| <= |t.entries|
    && (forall i :: 0 <= i < |s.entries| ==> Evolves(s.entries[i], t.entries[i]))
    && (forall key :: key in t.registry ==>
          t.registry[key] >= |s.entries| || (key in s.registry && s.registry[key] == t.registry[key]))
  }

  lemma CallEvolves(s: State, t: State, call: Call)
    requires CallOk(s, call) && Grows(s, t)
    ensures CallOk(t, call)
  {
    hide EntryInv;
    if call.StopCall? && !call.stop.Finding? && !call.stop.StopFailed? {
      assert Evolves(s.entries[call.stop.id], t.entries[call.stop.id]);
    }
    if call.CloseCall? {
      forall k | 0 <= k < |call.snapshot| ensures Over(s, call.snapshot[k]) ==> Over(t, call.snapshot[k]) {
        assert Evolves(s.entries[call.snapshot[k]], t.entries[call.snapshot[k]]);
      }
    }
  }

  /** Calls survive a step that moves at most one of them. */
  lemma CallsEvolve(s: State, t: State, c: nat)
    requires CallsOk(s) && Grows(s, t)
    requires |s.calls| <= |t.calls|
    requires forall k :: 0 <= k < |t.calls| && k != c ==> k < |s.calls| && t.calls[k] == s.calls[k]
    requires c < |t.calls| ==> CallOk(t, t.calls[c])
    ensures CallsOk(t)
  {
    hide CallOk, Grows;
    forall k | 0 <= k < |t.calls| ensures CallOk(t, t.calls[k]) {
      var call := t.calls[k];
      if k != c {
        assert call == s.calls[k];
        CallEvolves(s, t, s.calls[k]);
      }
    }
  }

  lemma GrowsByUpdate(s: State, t: State, id: nat)
    requires EntriesOk(s) && RegistryOk(s) && t.registry == s.registry
    requires id < |s.entries| == |t.entries| && t.entries == s.entries[id := t.entries[id]]
    requires EntryInv(t.entries[id]) && Evolves(s.entries[id], t.entries[id])
    ensures Grows(s, t) && EntriesOk(t)
    ensures RegistryOk(t)
  {
    hide EntryInv;
    forall i | 0 <= i < |s.entries| ensures Evolves(s.entries[i], t.entries[i]) {
    }
  }

  lemma GrowsByNothing(s: State, t: State)
    requires EntriesOk(s) && RegistryOk(s) && t.registry == s.registry && t.entries == s.entries
    ensures Grows(s, t) && EntriesOk(t) && RegistryOk(t)
  {
    hide EntryInv;
  }

  lemma StartGrows(s: State, session: string, process: string, workingDirectory: string, t: State)
    requires EntriesOk(s) && RegistryOk(s) && Started(s, session, process, workingDirectory) == Some(t)
    ensures EntriesOk(t) && Grows(s, t)
  {
    assert EntryInv(Entry(session, process, workingDirectory, FRESH_STATUS, Unspawned));
    hide BackgroundKey, EntryInv, Evolves;
    forall i | 0 <= i < |s.entries| ensures t.entries[i] == s.entries[i] && Evolves(s.entries[i], t.entries[i]) {
      EvolvesSelf(s.entries[i]);
    }
  }

  lemma StartRegisters(s: State, session: string, process: string, workingDirectory: string, t: State)
    requires RegistryOk(s) && Started(s, session, process, workingDirectory) == Some(t)
    ensures RegistryOk(t)
  {
    hide BackgroundKey;
    assert forall i :: 0 <= i < |s.entries| ==> t.entries[i] == s.entries[i];
  }

  lemma StartKeeps(s: State, session: string, process: string, workingDirectory: string, t: State)
    requires Inv(s) && Started(s, session, process, workingDirectory) == Some(t)
    ensures Inv(t) && Grows(s, t)
  {
    StartGrows(s, session, process, workingDirectory, t);
    StartRegisters(s, session, process, workingDirectory, t);
    hide BackgroundKey, CallOk, EntriesOk, RegistryOk, Grows;
    CallsEvolve(s, t, |t.calls|);
  }

  lemma MonitorStepKeeps(s: State, id: nat, act: MonitorAct, t: State)
    requires Inv(s) && Apply(s, MonitorStep(id, act)) == Some(t)
    ensures Inv(t) && Grows(s, t)
  {
    MonitorKeeps(s.entries[id], act, t.entries[id]);
    hide EntryInv, MonitorNext, CallOk, Evolves;
    GrowsByUpdate(s, t, id);
    CallsEvolve(s, t, |t.calls|);
  }

  lemma MarkKeeps(s: State, id: nat)
    requires EntriesOk(s) && RegistryOk(s) && id < |s.entries|
    ensures EntriesOk(Marked(s, id)) && RegistryOk(Marked(s, id)) && Grows(s, Marked(s, id))
  {
    ReasonKeeps(s.entries[id]);
    hide EntryInv, Evolves;
    GrowsByUpdate(s, Marked(s, id), id);
  }

  /** Removing a finished entry's own key leaves every running entry, and every newer one, registered. */
  lemma RemoveKeeps(s: State, key: string, id: nat)
    requires EntriesOk(s) && RegistryOk(s) && Over(s, id) && KeyOf(s.entries[id]) == key
    ensures var t := s.(registry := Unregistered(s.registry, key, id));
            && EntriesOk(t) && RegistryOk(t) && Grows(s, t)
            && forall k :: k in t.registry ==> t.registry[k] != id
  {
    hide EntryInv, BackgroundKey;
    var t := s.(registry := Unregistered(s.registry, key, id));
    if t.registry != s.registry {
      assert |t.registry| == |s.registry| - 1 by {
        assert s.registry == t.registry[key := id];
      }
    }
  }

  lemma StopMarkKeeps(s: State, c: nat, t: State)
    requires Inv(s) && Apply(s, StopStep(c, Mark)) == Some(t)
    ensures Inv(t) && Grows(s, t)
  {
    hide EntryInv, BackgroundKey, WithReason;
    var call := s.calls[c];
    assert CallOk(s, call);
    MarkKeeps(s, call.stop.id);
    CallEvolves(s, t, call);
    CallsEvolve(s, t, c);
  }

  lemma StopRemoveKeeps(s: State, c: nat, t: State)
    requires Inv(s) && Apply(s, StopStep(c, Remove)) == Some(t)
    ensures Inv(t) && Grows(s, t)
  {
    hide EntryInv, BackgroundKey, WithReason, Unregistered;
    var call := s.calls[c];
    assert CallOk(s, call);
    RemoveKeeps(s, BackgroundKey(call.session, call.process), call.stop.id);
    hide Grows, RegistryOk;
    CallsEvolve(s, t, c);
  }

  lemma StopStepKeeps(s: State, c: nat, act: StopAct, t: State)
    requires Inv(s) && Apply(s, StopStep(c, act)) == Some(t)
    ensures Inv(t) && Grows(s, t)
  {
    if act.Mark? {
      StopMarkKeeps(s, c, t);
    } else if act.Remove? {
      StopRemoveKeeps(s, c, t);
    } else {
      assert CallOk(s, s.calls[c]);
      hide EntryInv, Evolves, CallOk, Grows;
      StopMoveOk(s, c, act, t);
      GrowsByNothing(s, t);
      CallsEvolve(s, t, c);
    }
  }

  /** A move of stopBackground that touches neither entry nor registry. */
  lemma StopMoveOk(s: State, c: nat, act: StopAct, t: State)
    requires c < |s.calls| && s.calls[c].StopCall? && StopNext(s, c, act) == Some(t) && !act.Mark? && !act.Remove?
    requires CallOk(s, s.calls[c]) && EntriesOk(s) && RegistryOk(s)
    ensures CallOk(t, t.calls[c]) && t.entries == s.entries && t.registry == s.registry
    ensures |t.calls| == |s.calls| && forall k :: 0 <= k < |s.calls| && k != c ==> t.calls[k] == s.calls[k]
  {
    hide EntryInv, BackgroundKey;
    var call := s.calls[c];
    if act.Wake? {
      assert EntryInv(s.entries[call.stop.id]);
      ClosedIsOver(s.entries[call.stop.id]);
    }
  }

  lemma ClosedIsOver(e: Entry)
    requires EntryInv(e) && e.status.closes > 0
    ensures e.status.state != Running
  {
  }

  lemma CloseMarkKeeps(s: State, c: nat, t: State)
    requires Inv(s) && Apply(s, CloseStep(c, MarkNext)) == Some(t)
    ensures Inv(t) && Grows(s, t)
  {
    hide EntryInv, BackgroundKey, WithReason;
    var call := s.calls[c];
    assert CallOk(s, call);
    MarkKeeps(s, call.snapshot[call.index]);
    CallEvolves(s, t, call);
    hide Grows;
    CallsEvolve(s, t, c);
  }

  lemma CloseStepKeeps(s: State, c: nat, act: CloseAct, t: State)
    requires Inv(s) && Apply(s, CloseStep(c, act)) == Some(t)
    ensures Inv(t) && Grows(s, t)
  {
    if act.MarkNext? {
      CloseMarkKeeps(s, c, t);
    } else {
      assert CallOk(s, s.calls[c]);
      hide EntryInv, Evolves, CallOk, Grows;
      CloseMoveOk(s, c, act, t);
      GrowsByNothing(s, t);
      CallsEvolve(s, t, c);
    }
  }

  /** A move of Close that touches no entry. */
  lemma CloseMoveOk(s: State, c: nat, act: CloseAct, t: State)
    requires c < |s.calls| && s.calls[c].CloseCall? && CloseNext(s, c, act) == Some(t) && !act.MarkNext?
    requires CallOk(s, s.calls[c]) && EntriesOk(s) && RegistryOk(s)
    ensures CallOk(t, t.calls[c]) && t.entries == s.entries && t.registry == s.registry
    ensures |t.calls| == |s.calls| && forall k :: 0 <= k < |s.calls| && k != c ==> t.calls[k] == s.calls[k]
  {
    hide EntryInv;
    var call := s.calls[c];
    if act.WakeNext? {
      assert EntryInv(s.entries[call.snapshot[call.index]]);
      ClosedIsOver(s.entries[call.snapshot[call.index]]);
    }
  }

  lemma StepKeeps(s: State, step: Step, t: State)
    requires Inv(s) && Apply(s, step) == Some(t)
    ensures Inv(t) && Grows(s, t)
  {
    match step {
      case Start(session, process, workingDirectory) => StartKeeps(s, session, process, workingDirectory, t);
      case MonitorStep(id, act) => MonitorStepKeeps(s, id, act, t);
      case StopStep(c, act) => StopStepKeeps(s, c, act, t);
      case CloseStep(c, act) => CloseStepKeeps(s, c, act, t);
      case _ =>
        GrowsByNothing(s, t);
        CallsEvolve(s, t, |s.calls|);
    }
  }

  lemma {:induction false} RunKeeps(states: seq<State>, steps: seq<Step>, k: nat)
    requires IsRun(states, steps) && k < |states|
    ensures Inv(states[k])
  {
    hide Inv, Apply;
    if k == 0 {
      assert Inv(INITIAL) by { InitialInv(); }
    } else {
      RunKeeps(states, steps, k - 1);
      StepKeeps(states[k - 1], steps[k - 1], states[k]);
    }
  }

  lemma InitialInv()
    ensures Inv(INITIAL)
  {
  }

  // ----- Over whole runs -----

  lemma EvolvesOn(a: Entry, b: Entry, c: Entry)
    requires Evolves(a, b) && Evolves(b, c)
    ensures Evolves(a, c)
  {
  }

  /** In every run, whatever interleaves: once an entry has left running, its state, exit code and finish time
      never change; its reason, once set, never changes; and its done channel is closed at most once. */
  lemma {:induction false} SettledForGood(states: seq<State>, steps: seq<Step>, i: nat, j: nat, id: nat)
    requires IsRun(states, steps) && i <= j < |states| && id < |states[i].entries|
    ensures id < |states[j].entries| && Evolves(states[i].entries[id], states[j].entries[id])
    ensures states[j].entries[id].status.closes <= 1
    decreases j - i
  {
    hide Apply, EntryInv, Evolves;
    RunKeeps(states, steps, j);
    assert Inv(states[j]);
    if i == j {
      EvolvesSelf(states[i].entries[id]);
      ClosesOnce(states[j].entries[id]);
    } else {
      SettledForGood(states, steps, i, j - 1, id);
      RunKeeps(states, steps, j - 1);
      StepKeeps(states[j - 1], steps[j - 1], states[j]);
      EvolvesOn(states[i].entries[id], states[j - 1].entries[id], states[j].entries[id]);
      ClosesOnce(states[j].entries[id]);
    }
  }

  lemma EvolvesSelf(e: Entry)
    ensures Evolves(e, e)
  {
  }

  lemma ClosesOnce(e: Entry)
    requires EntryInv(e)
    ensures e.status.closes <= 1
  {
  }

  /** In every run: a stopped or timed-out entry has that reason, and an exit code is there, in range, exactly
      for the exited and the stopped. */
  lemma OutcomeFits(states: seq<State>, steps: seq<Step>, k: nat, id: nat)
    requires IsRun(states, steps) && k < |states| && id < |states[k].entries|
    ensures var status := states[k].entries[id].status;
            && (status.state == Stopped || status.state == TimeExpired ==> status.reason == Some(status.state))
            && (status.exitCode.Some? <==> status.state == Exited || status.state == Stopped)
            && (status.exitCode.Some? ==> 0 <= status.exitCode.value <= MAX_EXIT_CODE)
            && (status.closes > 0 ==> status.state != Running)
  {
    hide Apply;
    RunKeeps(states, steps, k);
    assert EntryInv(states[k].entries[id]);
  }

  /** In every run: at most 32 keys, every running process registered under its own key, and so at most one
      running process for each session and process identifier. */
  lemma RegistrySound(states: seq<State>, steps: seq<Step>, k: nat, a: nat, b: nat)
    requires IsRun(states, steps) && k < |states| && a < |states[k].entries| && b < |states[k].entries|
    ensures |states[k].registry| <= MAX_BACKGROUND_PROCESSES
    ensures var e := states[k].entries[a];
            e.status.state == Running ==> KeyOf(e) in states[k].registry && states[k].registry[KeyOf(e)] == a
    ensures var e, f := states[k].entries[a], states[k].entries[b];
            e.status.state == f.status.state == Running && e.session == f.session && e.process == f.process ==>
              a == b
    ensures var e, f := states[k].entries[a], states[k].entries[b];
            IsIdentifier(e.session) && IsIdentifier(f.session) ==>
              (KeyOf(e) == KeyOf(f) <==> e.session == f.session && e.process == f.process)
  {
    hide Apply, IsIdentifier;
    RunKeeps(states, steps, k);
    var e, f := states[k].entries[a], states[k].entries[b];
    if IsIdentifier(e.session) && IsIdentifier(f.session) {
      IdentifierHasNoNul(e.session);
      IdentifierHasNoNul(f.session);
      BundleKeyInjective(e.session, e.process, f.session, f.process);
    }
  }

  /** A stop that lost a race with a restart: removing under a key that names another entry changes nothing. */
  lemma StopSparesNewer(s: State, c: nat, t: State)
    requires Inv(s) && Apply(s, StopStep(c, Remove)) == Some(t)
    ensures var call := s.calls[c];
            && Over(s, call.stop.id)
            && forall key :: key in s.registry && s.registry[key] != call.stop.id ==>
                 key in t.registry && t.registry[key] == s.registry[key]
  {
    hide EntryInv;
    assert CallOk(s, s.calls[c]);
  }

  /** In every run: a stop that returned left its entry finished and unregistered, for good; a close that
      returned without an error left every entry it had snapshotted finished. */
  lemma ReturnsAreFinal(states: seq<State>, steps: seq<Step>, k: nat, c: nat)
    requires IsRun(states, steps) && k < |states| && c < |states[k].calls|
    ensures var s, call := states[k], states[k].calls[c];
            if call.StopCall? then
              call.stop.StopReturned? ==>
                Over(s, call.stop.id) && forall key :: key in s.registry ==> s.registry[key] != call.stop.id
            else
              call.close == CloseReturned && !call.failed ==>
                forall i :: 0 <= i < |call.snapshot| ==> Over(s, call.snapshot[i])
  {
    hide Apply, EntryInv;
    RunKeeps(states, steps, k);
    assert CallOk(states[k], states[k].calls[c]);
  }

  // ----- Exactly once -----

  /** In every run, a done channel has been closed exactly once if the monitor has ended, and not at all before. */
  lemma ClosedExactlyWhenEnded(states: seq<State>, steps: seq<Step>, k: nat, id: nat)
    requires IsRun(states, steps) && k < |states| && id < |states[k].entries|
    ensures states[k].entries[id].status.closes == if states[k].entries[id].monitor.Ended? then 1 else 0
    ensures states[k].entries[id].monitor.Ended? ==> states[k].entries[id].status.state != Running
  {
    hide Apply;
    RunKeeps(states, steps, k);
    assert EntryInv(states[k].entries[id]);
  }

  function MovesOf(steps: seq<Step>, id: nat): nat
  {
    if steps == [] then 0
    else
      var last := steps[|steps| - 1];
      MovesOf(steps[..|steps| - 1], id) + if last.MonitorStep? && last.id == id then 1 else 0
  }

  lemma {:induction false} MovesSoFar(states: seq<State>, steps: seq<Step>, k: nat, id: nat)
    requires IsRun(states, steps) && k < |states|
    ensures if id < |states[k].entries| then MovesOf(steps[..k], id) + Rank(states[k].entries[id].monitor) <= 6
            else MovesOf(steps[..k], id) == 0
  {
    hide BackgroundKey, WithReason, MonitorNext;
    if k > 0 {
      MovesSoFar(states, steps, k - 1, id);
      assert steps[..k][..k - 1] == steps[..k - 1];
      var s, step, t := states[k - 1], steps[k - 1], states[k];
      assert Apply(s, step) == Some(t);
      if step.MonitorStep? {
        MonitorDescends(s.entries[step.id], step.act, t.entries[step.id]);
      } else if id < |s.entries| {
        SameMonitor(s, step, t, id);
      }
    }
  }

  /** In every run each monitor moves at most six times, and has ended after six. */
  lemma AtMostSixMoves(states: seq<State>, steps: seq<Step>, id: nat)
    requires IsRun(states, steps)
    ensures MovesOf(steps, id) <= 6
    ensures MovesOf(steps, id) == 6 ==> id < |states[|steps|].entries| && states[|steps|].entries[id].monitor.Ended?
  {
    hide Apply;
    MovesSoFar(states, steps, |steps|, id);
    assert steps[..|steps|] == steps;
  }

  /** Only its own moves change where a monitor is. */
  lemma SameMonitor(s: State, step: Step, t: State, id: nat)
    requires Apply(s, step) == Some(t) && id < |s.entries| && !(step.MonitorStep? && step.id == id)
    ensures id < |t.entries| && t.entries[id].monitor == s.entries[id].monitor
  {
    hide BackgroundKey, WithReason, MonitorNext;
  }

  ghost predicate LeavesAt(states: seq<State>, k: nat, id: nat)
  {
    && k + 1 < |states| && id < |states[k].entries| && id < |states[k + 1].entries|
    && states[k].entries[id].status.state == Running && states[k + 1].entries[id].status.state != Running
  }

  /** In every run, an entry that was running and is not any more left running at exactly one step. */
  lemma {:induction false} LeavesRunningOnce(states: seq<State>, steps: seq<Step>, i: nat, j: nat, id: nat)
    returns (k: nat)
    requires IsRun(states, steps) && i <= j < |states| && id < |states[i].entries| && id < |states[j].entries|
    requires states[i].entries[id].status.state == Running && states[j].entries[id].status.state != Running
    ensures i <= k < j && LeavesAt(states, k, id)
    ensures forall l: nat :: LeavesAt(states, l, id) ==> l == k
    decreases j - i
  {
    hide Apply, EntryInv;
    SettledForGood(states, steps, i, j - 1, id);
    if states[j - 1].entries[id].status.state == Running {
      k := j - 1;
      forall l: nat | LeavesAt(states, l, id) ensures l == k {
        if l < k { SettledForGood(states, steps, l + 1, k, id); }
        if l > k { SettledForGood(states, steps, j, l, id); }
      }
    } else {
      k := LeavesRunningOnce(states, steps, i, j - 1, id);
    }
  }

  // ----- When an exited entry carries the reason of a stop -----

  /** The lock region in which a stop or a close gives the entry its reason. */
  predicate MarksEntry(s: State, step: Step, id: nat)
  {
    match step
    case StopStep(c, act) => act.Mark? && c < |s.calls| && s.calls[c].StopCall? && s.calls[c].stop == Marking(id)
    case CloseStep(c, act) =>
      && act.MarkNext? && c < |s.calls| && s.calls[c].CloseCall? && s.calls[c].close == MarkingNext
      && s.calls[c].index < |s.calls[c].snapshot| && s.calls[c].snapshot[s.calls[c].index] == id
    case _ => false
  }

  /** The monitor has read that there is no reason, and will settle, or has settled, the entry as exited. */
  predicate ExitDecided(e: Entry)
  {
    e.status.state == Exited || (e.monitor.Finishing? && e.monitor.final == Exited)
  }

  ghost predicate MarkedAt(states: seq<State>, steps: seq<Step>, j: nat, id: nat)
    requires |states| == |steps| + 1
  {
    j < |steps| && id < |states[j].entries| && MarksEntry(states[j], steps[j], id)
  }

  /** Stopped before the monitor decided: it cannot decide on exited any more. */
  predicate StoppedInTime(e: Entry) { e.status.reason == Some(Stopped) && !ExitDecided(e) }

  lemma MonitorHeedsStop(e: Entry, act: MonitorAct, f: Entry)
    requires EntryInv(e) && StoppedInTime(e) && MonitorNext(e, act) == Some(f)
    ensures StoppedInTime(f)
  {
  }

  /** Where a reason comes from: a stop's from a mark alone, and a mark always leaves one. */
  lemma ReasonOf(s: State, step: Step, t: State, id: nat)
    requires Apply(s, step) == Some(t) && id < |s.entries|
    ensures id < |t.entries|
    ensures MarksEntry(s, step, id) ==>
              t.entries[id] == s.entries[id].(status := WithReason(s.entries[id].status, Stopped))
    ensures !MarksEntry(s, step, id) && !(step.MonitorStep? && step.id == id) ==> t.entries[id] == s.entries[id]
    ensures !MarksEntry(s, step, id) && t.entries[id].status.reason == Some(Stopped) ==>
              s.entries[id].status.reason == Some(Stopped)
  {
    hide BackgroundKey, Unregistered, Registered, AfterExit;
  }

  lemma StepHeedsStop(s: State, step: Step, t: State, id: nat)
    requires Apply(s, step) == Some(t) && id < |s.entries| && EntryInv(s.entries[id]) && StoppedInTime(s.entries[id])
    ensures id < |t.entries| && StoppedInTime(t.entries[id])
  {
    ReasonOf(s, step, t, id);
    if step.MonitorStep? && step.id == id {
      MonitorHeedsStop(s.entries[id], step.act, t.entries[id]);
    }
    hide BackgroundKey, MonitorNext;
  }

  /** In every run, an entry stopped before its monitor decided never ends as exited. */
  lemma {:induction false} StoppedInTimeStays(states: seq<State>, steps: seq<Step>, i: nat, j: nat, id: nat)
    requires IsRun(states, steps) && i <= j < |states| && id < |states[i].entries|
    requires StoppedInTime(states[i].entries[id])
    ensures id < |states[j].entries| && StoppedInTime(states[j].entries[id])
    decreases j - i
  {
    hide Apply, EntryInv, StoppedInTime;
    if i < j {
      StoppedInTimeStays(states, steps, i, j - 1, id);
      RunKeeps(states, steps, j - 1);
      assert EntryInv(states[j - 1].entries[id]);
      StepHeedsStop(states[j - 1], steps[j - 1], states[j], id);
    }
  }

  /** In every run, an entry with the reason of a stop has been marked. */
  lemma {:induction false} MarkedBefore(states: seq<State>, steps: seq<Step>, k: nat, id: nat) returns (j: nat)
    requires IsRun(states, steps) && k < |states| && id < |states[k].entries|
    requires states[k].entries[id].status.reason == Some(Stopped)
    ensures j < k && MarkedAt(states, steps, j, id)
  {
    hide Apply, MarksEntry;
    var s, t := states[k - 1], states[k];
    if id < |s.entries| {
      ReasonOf(s, steps[k - 1], t, id);
      if MarksEntry(s, steps[k - 1], id) {
        j := k - 1;
      } else {
        j := MarkedBefore(states, steps, k - 1, id);
      }
    } else {
      StartedFresh(s, steps[k - 1], t, id);
    }
  }

  lemma StartedFresh(s: State, step: Step, t: State, id: nat)
    requires Apply(s, step) == Some(t) && |s.entries| <= id < |t.entries|
    ensures t.entries[id].status == FRESH_STATUS
  {
    hide BackgroundKey, MonitorNext, WithReason;
  }

  /** In every run, in which runs an exited entry carries the reason of a stop: exactly in those in which a stop or a
      close marked it, and every such mark came after the monitor had read that there was no reason. No exited entry
      carries the reason of the timer. */
  lemma ExitedAndStopped(states: seq<State>, steps: seq<Step>, k: nat, id: nat)
    requires IsRun(states, steps) && k < |states| && id < |states[k].entries|
    requires states[k].entries[id].status.state == Exited
    ensures states[k].entries[id].status.reason == Some(Stopped) <==>
              exists j: nat :: j < k && MarkedAt(states, steps, j, id)
    ensures states[k].entries[id].status.reason.None? || states[k].entries[id].status.reason == Some(Stopped)
    ensures forall j: nat :: j < k && MarkedAt(states, steps, j, id) ==> ExitDecided(states[j].entries[id])
  {
    hide Apply, EntryInv, MarksEntry;
    RunKeeps(states, steps, k);
    ExitedReason(states[k].entries[id]);
    forall j: nat | j < k && MarkedAt(states, steps, j, id)
      ensures states[k].entries[id].status.reason == Some(Stopped) && ExitDecided(states[j].entries[id])
    {
      ReasonOf(states[j], steps[j], states[j + 1], id);
      SettledForGood(states, steps, j + 1, k, id);
      if !ExitDecided(states[j].entries[id]) { StoppedInTimeStays(states, steps, j + 1, k, id); }
    }
    if states[k].entries[id].status.reason == Some(Stopped) {
      var j := MarkedBefore(states, steps, k, id);
    }
  }

  lemma ExitedReason(e: Entry)
    requires EntryInv(e) && e.status.state == Exited
    ensures e.status.reason.None? || e.status.reason == Some(Stopped)
  {
  }

  // ----- A run in which an exit and a stop meet -----

  lemma ExtendRun(states: seq<State>, steps: seq<Step>, step: Step, t: State)
    requires IsRun(states, steps) && Apply(states[|steps|], step) == Some(t)
    ensures IsRun(states + [t], steps + [step])
  {
    hide Apply;
  }

  /** One entry, registered under its own key, and the calls about it. */
  function Solo(e: Entry, calls: seq<Call>): State { State([e], map[KeyOf(e) := 0], calls) }

  lemma SoloMonitor(e: Entry, act: MonitorAct, f: Entry, calls: seq<Call>)
    requires MonitorNext(e, act) == Some(f) && KeyOf(e) == KeyOf(f)
    ensures Apply(Solo(e, calls), MonitorStep(0, act)) == Some(Solo(f, calls))
  {
    hide BackgroundKey, MonitorNext;
    assert [e][0 := f] == [f];
  }

  lemma SoloStop(e: Entry, call: Call, act: StopAct, f: Entry, next: Call)
    requires call.StopCall? && StopNext(Solo(e, [call]), 0, act).Some?
    requires var t := StopNext(Solo(e, [call]), 0, act).value;
             t.entries == [f] && t.registry == map[KeyOf(f) := 0] && t.calls == [next]
    ensures Apply(Solo(e, [call]), StopStep(0, act)) == Some(Solo(f, [next]))
  {
    hide BackgroundKey, StopNext;
  }

  lemma SoloStart()
    ensures Apply(INITIAL, Step.Start("s", "p", "w")) == Some(Solo(Entry("s", "p", "w", FRESH_STATUS, Unspawned), []))
  {
    hide BackgroundKey;
    var e := Entry("s", "p", "w", FRESH_STATUS, Unspawned);
    assert [] + [e] == [e];
    assert INITIAL.registry[KeyOf(e) := 0] == map[KeyOf(e) := 0];
  }

  lemma SoloCall(e: Entry)
    ensures var call := StopCall("s", "p", "w", Finding);
            Apply(Solo(e, []), CallStop("s", "p", "w")) == Some(Solo(e, [call]))
  {
    hide BackgroundKey;
    assert [] + [StopCall("s", "p", "w", Finding)] == [StopCall("s", "p", "w", Finding)];
  }

  /** The reason is read before the final state is written, so a stop can fall in between: in some run an entry
      ends as exited and carries the reason of that stop. */
  lemma ExitedDespiteStop() returns (states: seq<State>, steps: seq<Step>)
    ensures IsRun(states, steps)
    ensures var s := states[|steps|];
            |s.entries| == 1 && s.entries[0].status.state == Exited && s.entries[0].status.reason == Some(Stopped)
  {
    hide BackgroundKey, Apply;
    var e := Entry("s", "p", "w", FRESH_STATUS, Unspawned);
    var selecting := e.(monitor := Selecting);
    var exited := e.(monitor := GotExit(Some(Exit(0, false))));
    var finishing := e.(monitor := Finishing(Exited, Some(0)));
    var marked := finishing.(status := FRESH_STATUS.(reason := Some(Stopped)));
    var settled := marked.(status := Settled(marked.status, Exited, Some(0), 0), monitor := ClosingDone);
    var call := StopCall("s", "p", "w", Finding);
    states, steps := [INITIAL], [];
    SoloStart();
    states, steps := Then(states, steps, Step.Start("s", "p", "w"), Solo(e, []));
    SoloMonitor(e, Spawn, selecting, []);
    states, steps := Then(states, steps, MonitorStep(0, Spawn), Solo(selecting, []));
    SoloMonitor(selecting, ReceiveExit(Some(Exit(0, false))), exited, []);
    states, steps := Then(states, steps, MonitorStep(0, ReceiveExit(Some(Exit(0, false)))), Solo(exited, []));
    SoloMonitor(exited, ReadReason, finishing, []);
    states, steps := Then(states, steps, MonitorStep(0, ReadReason), Solo(finishing, []));
    SoloCall(finishing);
    states, steps := Then(states, steps, CallStop("s", "p", "w"), Solo(finishing, [call]));
    SoloStop(finishing, call, Find, finishing, call.(stop := Checking(0)));
    states, steps := Then(states, steps, StopStep(0, Find), Solo(finishing, [call.(stop := Checking(0))]));
    SoloStop(finishing, call.(stop := Checking(0)), Check, finishing, call.(stop := Marking(0)));
    states, steps := Then(states, steps, StopStep(0, Check), Solo(finishing, [call.(stop := Marking(0))]));
    SoloStop(finishing, call.(stop := Marking(0)), Mark, marked, call.(stop := TerminatingTree(0)));
    states, steps := Then(states, steps, StopStep(0, Mark), Solo(marked, [call.(stop := TerminatingTree(0))]));
    SoloMonitor(marked, Settle(0), settled, [call.(stop := TerminatingTree(0))]);
    states, steps := Then(states, steps, MonitorStep(0, Settle(0)), Solo(settled, [call.(stop := TerminatingTree(0))]));
  }

  lemma Then(states: seq<State>, steps: seq<Step>, step: Step, t: State)
    returns (longer: seq<State>, more: seq<Step>)
    requires IsRun(states, steps) && Apply(states[|steps|], step) == Some(t)
    ensures IsRun(longer, more) && more == steps + [step] && longer == states + [t] && longer[|more|] == t
  {
    ExtendRun(states, steps, step, t);
    longer, more := states + [t], steps + [step];
  }
}
