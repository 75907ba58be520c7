/** internal/executionrun/background.go: the runner itself, each of whose lock regions and channel operations is one
    step of the relation in Background, with any other thread free to run between two of them. */
module BackgroundRunner {
  import opened Protocol
  import opened Background

  /** Who is running: the goroutine of a monitor (or the caller that is about to spawn it), a call of
      stopBackground or Close, or any other request. */
  datatype Thread = MonitorThread(id: nat) | CallThread(call: nat) | RequestThread

  predicate Own(step: Step, me: Thread)
  {
    match step
    case MonitorStep(id, _) => me == MonitorThread(id)
    case StopStep(c, _) => me == CallThread(c)
    case CloseStep(c, _) => me == CallThread(c)
    case _ => false
  }

  /** Where a thread stands. */
  predicate SamePlace(s: State, t: State, me: Thread)
  {
    match me
    case MonitorThread(id) => id < |s.entries| ==> id < |t.entries| && t.entries[id].monitor == s.entries[id].monitor
    case CallThread(c) => c < |s.calls| ==> c < |t.calls| && t.calls[c] == s.calls[c]
    case RequestThread => true
  }

  lemma OthersKeepPlace(s: State, step: Step, t: State, me: Thread)
    requires Apply(s, step) == Some(t) && !Own(step, me)
    ensures SamePlace(s, t, me)
  {
    hide BackgroundKey, WithReason, MonitorNext;
    if me.MonitorThread? && me.id < |s.entries| { SameMonitor(s, step, t, me.id); }
  }

  /** From one state to a later one, entries evolve and monitors only move on. */
  ghost predicate Later(s: State, t: State)
  {
    && |s.entries| <= |t.entries| && |s.calls| <= |t.calls|
    && forall i :: 0 <= i < |s.entries| ==>
         Evolves(s.entries[i], t.entries[i]) && Rank(t.entries[i].monitor) <= Rank(s.entries[i].monitor)
  }

  lemma RankNeverRises(s: State, step: Step, t: State, id: nat)
    requires Apply(s, step) == Some(t) && id < |s.entries|
    ensures id < |t.entries| && Rank(t.entries[id].monitor) <= Rank(s.entries[id].monitor)
  {
    hide BackgroundKey, WithReason, MonitorNext, Rank;
    if step.MonitorStep? && step.id == id {
      MonitorDescends(s.entries[id], step.act, t.entries[id]);
    } else {
      SameMonitor(s, step, t, id);
    }
  }

  lemma CallsStay(s: State, step: Step, t: State)
    requires Apply(s, step) == Some(t)
    ensures |s.calls| <= |t.calls|
  {
    hide BackgroundKey, WithReason, MonitorNext;
  }

  lemma StepIsLater(s: State, step: Step, t: State)
    requires Inv(s) && Apply(s, step) == Some(t)
    ensures Later(s, t)
  {
    hide Apply, Inv, Evolves, Rank;
    StepKeeps(s, step, t);
    CallsStay(s, step, t);
    forall i | 0 <= i < |s.entries| ensures Rank(t.entries[i].monitor) <= Rank(s.entries[i].monitor) {
      RankNeverRises(s, step, t, i);
    }
  }

  lemma LaterOn(a: State, b: State, c: State)
    requires Later(a, b) && Later(b, c)
    ensures Later(a, c)
  {
    hide Evolves, Rank;
    forall i | 0 <= i < |a.entries| ensures Evolves(a.entries[i], c.entries[i]) {
      EvolvesOn(a.entries[i], b.entries[i], c.entries[i]);
    }
  }

  lemma LaterSelf(s: State)
    ensures Later(s, s)
  {
  }

  /** Some move a monitor can make; which of the enabled ones happens is up to its process and its timer. */
  method SomeMove(e: Entry) returns (act: MonitorAct)
    requires !e.monitor.Ended?
    ensures MonitorNext(e, act).Some?
  {
    act := *;
    if MonitorNext(e, act).Some? { return; }
    match e.monitor {
      case Unspawned => act := Spawn;
      case Selecting => act := ReceiveTimer;
      case GotExit(_) => act := ReadReason;
      case TimerFired => act := SetTimedOut;
      case Terminating => act := Terminate(true);
      case AwaitingExit(_) => act := ReceiveLateExit(None);
      case Finishing(_, _) => act := Settle(0);
      case ClosingDone => act := CloseDone;
    }
  }

  /** What a monitor meets: whether there is an exit channel and a timer, which of the two fires first, what
      comes off the channel, and whether the tree can be terminated. */
  datatype MonitorWorld = MonitorWorld(
    hasExit: bool, hasTimer: bool, exitFirst: bool, exit: Option<Exit>, terminates: bool, now: int)

  /** What a monitor in that world must leave behind. */
  predicate MonitorLeaves(world: MonitorWorld, status: Guarded)
  {
    if !world.hasExit || !world.hasTimer then status.state == RuntimeFailure
    else if !world.exitFirst && status.reason == Some(TimeExpired) then
      status.state == if world.terminates then TimeExpired else RuntimeFailure
    else if !ExitUsable(world.exit) then status.state == RuntimeFailure
    else
      && status.exitCode == Some(world.exit.value.code)
      && (status.state == Stopped || (world.exitFirst && status.state == Exited))
  }

  /** The runner: its registry of background processes, the entries it has created, and the calls in progress.
      Each lock region and each channel operation is one step of the relation above, recorded as it happens;
      between two of them any other thread may take any of its own. */
  class Runner {
    var background: map<string, nat>
    var entries: seq<Entry>
    var calls: seq<Call>
    ghost var states: seq<State>
    ghost var steps: seq<Step>

    constructor ()
      ensures Valid() && Now() == INITIAL && steps == []
    {
      background, entries, calls := map[], [], [];
      states, steps := [INITIAL], [];
    }

    function Now(): State reads this { State(entries, background, calls) }

    /** Everything so far is a run that has arrived here. */
    ghost predicate Valid()
      reads this
    {
      IsRun(states, steps) && states[|steps|] == Now()
    }

    /** The run so far is the beginning of the run now. */
    twostate predicate Continues()
      reads this
    {
      && Valid() && old(states) <= states && old(steps) <= steps && Later(old(Now()), Now())
    }

    ghost method Record(step: Step)
      requires IsRun(states, steps) && Apply(states[|steps|], step) == Some(Now())
      modifies this`states, this`steps
      ensures Valid() && states == old(states) + [Now()] && steps == old(steps) + [step]
      ensures Later(old(states)[|old(steps)|], Now())
    {
      hide Apply, Inv, Later;
      RunKeeps(states, steps, |steps|);
      StepIsLater(states[|steps|], step, Now());
      ExtendRun(states, steps, step, Now());
      states, steps := states + [Now()], steps + [step];
    }

    /** Other threads run: any number of steps, none of them of this thread. */
    method OthersRun(me: Thread)
      requires Valid()
      modifies this
      ensures Continues() && SamePlace(old(Now()), Now(), me)
    {
      hide Apply, Inv, Evolves, Rank, Later, IsRun;
      LaterSelf(Now());
      var rounds: nat := *;
      while rounds > 0
        invariant Continues() && SamePlace(old(Now()), Now(), me)
      {
        var step: Step := *;
        var next := Apply(Now(), step);
        if next.Some? && !Own(step, me) {
          ghost var s := Now();
          OthersKeepPlace(s, step, next.value, me);
          entries, background, calls := next.value.entries, next.value.registry, next.value.calls;
          Record(step);
          LaterOn(old(Now()), s, Now());
        }
        rounds := rounds - 1;
      }
    }

    /** The entry moves to f by the named act of its monitor. */
    method Move(id: nat, act: MonitorAct, f: Entry)
      requires Valid() && id < |entries| && MonitorNext(entries[id], act) == Some(f)
      modifies this
      ensures Continues() && entries == old(entries)[id := f] && calls == old(calls) && background == old(background)
    {
      hide IsRun, MonitorNext, Later;
      entries := entries[id := f];
      Record(MonitorStep(id, act));
    }

    /** startBackground: exactly a free key below the capacity and a launch that works admit the process, in one
        step; its monitor is then spawned. */
    method StartBackground(session: string, process: string, workingDirectory: string, launches: bool)
      returns (started: Option<nat>)
      requires Valid()
      modifies this
      ensures Continues()
      ensures started.Some? <==>
                launches && BackgroundKey(session, process) !in old(background)
                && |old(background)| < MAX_BACKGROUND_PROCESSES
      ensures started.None? ==> Now() == old(Now()) && steps == old(steps)
      ensures started.Some? ==>
                && started.value == |old(entries)| < |entries| && entries[started.value].monitor == Selecting
                && KeyOf(entries[started.value]) == BackgroundKey(session, process)
                && entries[started.value].workingDirectory == workingDirectory
                && old(steps) + [Step.Start(session, process, workingDirectory)] <= steps
    {
      hide IsRun, MonitorNext, BackgroundKey, Evolves, Rank, Later;
      LaterSelf(Now());
      var key := BackgroundKey(session, process);
      if key in background || |background| >= MAX_BACKGROUND_PROCESSES || !launches { return None; }
      var id := |entries|;
      ghost var s0 := Now();
      entries := entries + [Entry(session, process, workingDirectory, FRESH_STATUS, Unspawned)];
      background := background[key := id];
      Record(Step.Start(session, process, workingDirectory));
      ghost var s1 := Now();
      OthersRun(MonitorThread(id));
      LaterOn(s0, s1, Now());
      ghost var s2 := Now();
      LaterLength(s1, s2);
      LaterEntry(s1, s2, id);
      EvolvedIdentity(s1.entries[id], s2.entries[id]);
      Spawns(entries[id]);
      Move(id, Spawn, entries[id].(monitor := Selecting));
      LaterOn(s0, s2, Now());
      started := Some(id);
    }

    lemma EntryHolds(id: nat)
      requires Valid() && id < |entries|
      ensures EntryInv(entries[id])
    {
      hide Apply, EntryInv;
      RunKeeps(states, steps, |steps|);
    }

    /** Other threads run while a monitor stands still. */
    method MonitorYields(id: nat)
      requires Valid() && id < |entries|
      modifies this
      ensures Continues() && id < |entries| && entries[id].monitor == old(entries[id].monitor)
      ensures EntryInv(entries[id]) && Evolves(old(entries[id]), entries[id])
    {
      hide IsRun, EntryInv, Evolves, Rank;
      OthersRun(MonitorThread(id));
      EntryHolds(id);
    }

    /** The monitor makes one move, after whatever other threads did meanwhile. */
    method MonitorMoves(id: nat, act: MonitorAct) returns (ghost e: Entry)
      requires Valid() && id < |entries| && MonitorNext(entries[id], act).Some?
      modifies this
      ensures Continues() && id < |entries| && EntryInv(entries[id]) && Evolves(old(entries[id]), entries[id])
      ensures EntryInv(e) && e.monitor == old(entries[id].monitor) && Evolves(old(entries[id]), e)
      ensures MonitorNext(e, act) == Some(entries[id])
    {
      hide IsRun, EntryInv, Evolves, Rank, Later, MonitorNext;
      ghost var s0, e0 := Now(), entries[id];
      MonitorYields(id);
      ghost var s1 := Now();
      e := entries[id];
      EnabledByPlace(e0, e, act);
      var next := MonitorNext(entries[id], act);
      Move(id, act, next.value);
      LaterOn(s0, s1, Now());
      MonitorKeeps(e, act, next.value);
      EvolvesOn(e0, e, next.value);
    }

    /** finish: the final state is written and the channel closed, exactly once. */
    method Finish(id: nat, now: int)
      requires Valid() && id < |entries| && entries[id].monitor.Finishing?
      modifies this
      ensures Continues() && id < |entries| && Evolves(old(entries[id]), entries[id])
      ensures entries[id].monitor == Ended && entries[id].status.closes == 1
      ensures entries[id].status.state == old(entries[id].monitor.final)
      ensures entries[id].status.exitCode == old(entries[id].monitor.code)
    {
      hide IsRun, EntryInv, Evolves, Rank, Later, MonitorNext;
      ghost var s0, e0 := Now(), entries[id];
      SettleEnabled(e0, now);
      ghost var e1 := MonitorMoves(id, Settle(now));
      ghost var s2, e2 := Now(), entries[id];
      SettleWrites(e1, now, e2);
      ghost var e3 := MonitorMoves(id, CloseDone);
      ghost var e4 := entries[id];
      LaterOn(s0, s2, Now());
      EvolvesOn(e0, e2, e4);
      CloseEnds(e2, e3, e4);
    }

    /** The arm of the select that receives from the exit channel. */
    method OnExit(id: nat, world: MonitorWorld)
      requires Valid() && id < |entries| && entries[id].monitor == Selecting
      requires world.hasExit && world.hasTimer && world.exitFirst
      modifies this
      ensures Continues() && id < |entries| && WillLeave(world, entries[id])
    {
      hide IsRun, EntryInv, Evolves, Rank, Later, WillLeave, AfterExit;
      ghost var s0 := Now();
      ghost var e := MonitorMoves(id, ReceiveExit(world.exit));
      ghost var s1 := Now();
      e := MonitorMoves(id, ReadReason);
      LaterOn(s0, s1, Now());
      ExitTells(world, e, entries[id]);
    }

    /** The arm of the select that receives from the timer. */
    method OnTimer(id: nat, world: MonitorWorld)
      requires Valid() && id < |entries| && entries[id].monitor == Selecting
      requires world.hasExit && world.hasTimer && !world.exitFirst
      modifies this
      ensures Continues() && id < |entries| && WillLeave(world, entries[id])
    {
      hide IsRun, EntryInv, Evolves, Rank, Later, WillLeave, AfterExit;
      ghost var s0 := Now();
      ghost var e := MonitorMoves(id, ReceiveTimer);
      ghost var s1 := Now();
      e := MonitorMoves(id, SetTimedOut);
      TimerLeadsOn(e, entries[id]);
      ghost var s2 := Now();
      LaterOn(s0, s1, s2);
      if entries[id].monitor == Terminating {
        e := MonitorMoves(id, Terminate(world.terminates));
        TerminateTells(world, e, entries[id]);
      } else {
        e := MonitorMoves(id, ReceiveLateExit(world.exit));
        LateExitTells(world, e, entries[id]);
      }
      LaterOn(s0, s2, Now());
    }

    /** monitorBackground. It always ends, with the channel closed exactly once, in the outcome its world calls
        for, whatever the other threads do meanwhile. */
    method MonitorBackground(id: nat, world: MonitorWorld)
      requires Valid() && id < |entries| && entries[id].monitor == Selecting
      modifies this
      ensures Continues() && id < |entries|
      ensures entries[id].monitor == Ended && entries[id].status.closes == 1
      ensures MonitorLeaves(world, entries[id].status)
    {
      hide IsRun, EntryInv, Evolves, Rank, Later, WillLeave, MonitorLeaves, AfterExit;
      ghost var s0 := Now();
      if !world.hasExit || !world.hasTimer {
        ghost var e := MonitorMoves(id, if world.hasExit then NoTimer else NoExitChannel);
        ChannelTells(world, entries[id]);
      } else if world.exitFirst {
        OnExit(id, world);
      } else {
        OnTimer(id, world);
      }
      ghost var s1, f := Now(), entries[id];
      assert f.monitor.Finishing? by { WillLeavePlace(world, f); }
      Finish(id, world.now);
      LaterOn(s0, s1, Now());
      FinishTells(world, f, entries[id]);
    }

    /** The lock region of findBackground. */
    method FindBackground(c: nat) returns (found: Option<nat>)
      requires Valid() && c < |calls| && calls[c].StopCall? && calls[c].stop == Finding
      modifies this
      ensures Continues() && entries == old(entries) && background == old(background)
      ensures found ==
                Registered(old(Now()), old(calls[c].session), old(calls[c].process), old(calls[c].workingDirectory))
      ensures calls ==
                old(calls)[c := old(calls[c]).(stop := if found.Some? then Checking(found.value) else StopFailed)]
      ensures found.Some? ==> found.value < |entries|
    {
      hide IsRun, Later, BackgroundKey;
      var call := calls[c];
      var key := BackgroundKey(call.session, call.process);
      found := None;
      if key in background {
        var id := background[key];
        if id < |entries| && entries[id].workingDirectory == call.workingDirectory { found := Some(id); }
      }
      calls := calls[c := call.(stop := if found.Some? then Checking(found.value) else StopFailed)];
      Record(StopStep(c, Find));
    }

    /** entry.running */
    method CheckRunning(c: nat) returns (running: bool)
      requires Valid() && c < |calls| && calls[c].StopCall? && calls[c].stop.Checking? && calls[c].stop.id < |entries|
      modifies this
      ensures Continues() && entries == old(entries) && background == old(background)
      ensures var id := old(calls[c].stop.id);
              && running == (entries[id].status.state == Running)
              && calls == old(calls)[c := old(calls[c]).(stop := if running then Marking(id) else Removing(id))]
    {
      hide IsRun, Later;
      var id := calls[c].stop.id;
      running := entries[id].status.state == Running;
      calls := calls[c := calls[c].(stop := if running then Marking(id) else Removing(id))];
      Record(StopStep(c, Check));
    }

    /** setReason by a stop. */
    method MarkStopped(c: nat)
      requires Valid() && c < |calls| && calls[c].StopCall? && calls[c].stop.Marking? && calls[c].stop.id < |entries|
      modifies this
      ensures Continues() && background == old(background) && |entries| == |old(entries)|
      ensures entries[old(calls[c].stop.id)].status.reason.Some?
      ensures calls == old(calls)[c := old(calls[c]).(stop := TerminatingTree(old(calls[c].stop.id)))]
    {
      hide IsRun, Later;
      var id := calls[c].stop.id;
      if entries[id].status.reason.None? {
        entries := entries[id := entries[id].(status := entries[id].status.(reason := Some(Stopped)))];
      }
      calls := calls[c := calls[c].(stop := TerminatingTree(id))];
      assert entries == Marked(old(Now()), id).entries;
      Record(StopStep(c, Mark));
    }

    /** A call moves on without touching an entry or the registry. */
    method StopMoves(c: nat, act: StopAct, next: StopPhase)
      requires Valid() && c < |calls| && calls[c].StopCall?
      requires act in {TerminateTree(true), TerminateTree(false), Wake, Cancel}
      requires StopNext(Now(), c, act) == Some(WithCall(Now(), c, calls[c].(stop := next)))
      modifies this
      ensures Continues() && entries == old(entries) && background == old(background)
      ensures calls == old(calls)[c := old(calls[c]).(stop := next)]
    {
      hide IsRun, Later, StopNext;
      calls := calls[c := calls[c].(stop := next)];
      Record(StopStep(c, act));
    }

    /** No key but its own can name the entry that a stop is about to remove. */
    lemma OneKeyPerEntry(c: nat)
      requires Valid() && c < |calls| && calls[c].StopCall? && calls[c].stop.Removing?
      ensures forall key :: key in background && background[key] == calls[c].stop.id ==>
                key == BackgroundKey(calls[c].session, calls[c].process)
    {
      hide Apply, EntryInv, BackgroundKey;
      RunKeeps(states, steps, |steps|);
      assert CallOk(Now(), calls[c]);
    }

    /** removeBackground: the expected entry's key goes; every key that names another entry stays, a newer one under
        the same key included. */
    method RemoveBackground(c: nat)
      requires Valid() && c < |calls| && calls[c].StopCall? && calls[c].stop.Removing?
      modifies this
      ensures Continues() && entries == old(entries)
      ensures forall key ::
                key in background <==> key in old(background) && old(background)[key] != old(calls[c].stop.id)
      ensures forall key :: key in background ==> background[key] == old(background)[key]
      ensures calls == old(calls)[c := old(calls[c]).(stop := StopReturned(old(calls[c].stop.id)))]
    {
      OneKeyPerEntry(c);
      hide IsRun, Later, BackgroundKey;
      var key, expected := BackgroundKey(calls[c].session, calls[c].process), calls[c].stop.id;
      if key in background && background[key] == expected { background := background - {key}; }
      calls := calls[c := calls[c].(stop := StopReturned(expected))];
      Record(StopStep(c, Remove));
    }

    /** Other threads run while a call stands still. */
    method CallYields(c: nat)
      requires Valid() && c < |calls|
      modifies this
      ensures Continues() && c < |calls| && calls[c] == old(calls[c])
      ensures |old(entries)| <= |entries|
    {
      hide IsRun, Evolves, Rank;
      OthersRun(CallThread(c));
    }

    /** Waiting for an entry's done channel, while its monitor gets to run: every wait ends, because a monitor can
        always move and has only so many moves to make. */
    method AwaitDone(c: nat, id: nat)
      requires Valid() && c < |calls| && id < |entries|
      modifies this
      ensures Continues() && c < |calls| && calls[c] == old(calls[c])
      ensures id < |entries| && entries[id].status.closes > 0
    {
      hide IsRun, EntryInv, Evolves, Rank, Later, MonitorNext;
      CallYields(c);
      while !entries[id].monitor.Ended?
        invariant Continues() && c < |calls| && calls[c] == old(calls[c]) && id < |entries|
        decreases Rank(entries[id].monitor)
      {
        ghost var s, e := Now(), entries[id];
        var act := SomeMove(entries[id]);
        var next := MonitorNext(entries[id], act);
        MonitorDescends(entries[id], act, next.value);
        Move(id, act, next.value);
        ghost var t, f := Now(), entries[id];
        CallYields(c);
        LaterOn(old(Now()), s, t);
        LaterOn(old(Now()), t, Now());
        LaterEntry(t, Now(), id);
      }
      EntryHolds(id);
      EndedIsClosed(entries[id]);
    }

    /** From marking a running entry to the end of its monitor. */
    method TerminateAndAwait(c: nat, terminates: bool, cancelled: bool) returns (ended: bool)
      requires Valid() && c < |calls| && calls[c].StopCall? && calls[c].stop.Marking? && calls[c].stop.id < |entries|
      modifies this
      ensures Continues() && c < |calls| && ended == (terminates && !cancelled)
      ensures calls[c] == old(calls[c]).(stop := if ended then Removing(old(calls[c].stop.id)) else StopFailed)
    {
      hide IsRun, Evolves, Rank, Later, Apply;
      var id := calls[c].stop.id;
      ghost var s0 := Now();
      MarkStopped(c);
      ghost var s1 := Now();
      CallYields(c);
      ghost var s2 := Now();
      LaterOn(s0, s1, s2);
      StopMoves(c, TerminateTree(terminates), if terminates then AwaitingDone(id) else StopFailed);
      ghost var s3 := Now();
      LaterOn(s0, s2, s3);
      if !terminates { return false; }
      if cancelled {
        CallYields(c);
        ghost var s4 := Now();
        LaterOn(s0, s3, s4);
        StopMoves(c, Cancel, StopFailed);
        LaterOn(s0, s4, Now());
        return false;
      }
      AwaitDone(c, id);
      ghost var s4 := Now();
      LaterOn(s0, s3, s4);
      StopMoves(c, Wake, Removing(id));
      LaterOn(s0, s4, Now());
      ended := true;
    }

    /** The start of stopBackground: the call looks its entry up. */
    method Look(session: string, process: string, workingDirectory: string)
      returns (c: nat, found: Option<nat>, ghost at: nat)
      requires Valid()
      modifies this
      ensures Continues() && |old(states)| <= at < |states|
      ensures found == Registered(states[at], session, process, workingDirectory)
      ensures c < |calls| && (found.Some? ==> found.value < |entries|)
      ensures calls[c] ==
                StopCall(session, process, workingDirectory, if found.Some? then Checking(found.value) else StopFailed)
    {
      hide IsRun, Evolves, Rank, Later, Registered, Apply;
      c := |calls|;
      ghost var s0 := Now();
      calls := calls + [StopCall(session, process, workingDirectory, Finding)];
      CallStopStep(s0, session, process, workingDirectory);
      Record(CallStop(session, process, workingDirectory));
      ghost var s1 := Now();
      CallYields(c);
      ghost var s2 := Now();
      LaterOn(s0, s1, s2);
      RunLength(old(states), old(steps));
      RunLength(states, steps);
      at := |steps|;
      found := FindBackground(c);
      LaterOn(s0, s2, Now());
    }

    /** The rest of it: a running entry is stopped and awaited, and the key given up. */
    method StopFound(c: nat, terminates: bool, cancelled: bool) returns (ok: bool)
      requires Valid() && c < |calls| && calls[c].StopCall? && calls[c].stop.Checking? && calls[c].stop.id < |entries|
      modifies this
      ensures Continues() && (terminates && !cancelled ==> ok)
      ensures ok ==>
                && Over(Now(), old(calls[c].stop.id))
                && forall key :: key in background ==> background[key] != old(calls[c].stop.id)
    {
      hide IsRun, Evolves, Rank, Later, Over, Registered, Apply;
      ghost var s0 := Now();
      CallYields(c);
      ghost var s1 := Now();
      var running := CheckRunning(c);
      ghost var s2 := Now();
      LaterOn(s0, s1, s2);
      if running {
        CallYields(c);
        ghost var s3 := Now();
        LaterOn(s0, s2, s3);
        ok := TerminateAndAwait(c, terminates, cancelled);
        LaterOn(s0, s3, Now());
        if !ok { return; }
      }
      ghost var s4 := Now();
      CallYields(c);
      ghost var s5 := Now();
      LaterOn(s0, s4, s5);
      RemoveBackground(c);
      LaterOn(s0, s5, Now());
      RunLength(states, steps);
      ReturnsAreFinal(states, steps, |steps|, c);
      ok := true;
    }

    /** stopBackground. A stop that is neither cancelled nor unable to terminate the tree fails only if the key was
        not registered for this directory when it looked; one that returns has left its entry finished, with the
        key free for another. */
    method StopBackground(session: string, process: string, workingDirectory: string, terminates: bool, cancelled: bool)
      returns (stopped: Option<nat>, ghost found: Option<nat>, ghost at: nat)
      requires Valid()
      modifies this
      ensures Continues()
      ensures |old(states)| <= at < |states| && found == Registered(states[at], session, process, workingDirectory)
      ensures stopped.Some? ==> stopped == found
      ensures found.Some? && terminates && !cancelled ==> stopped.Some?
      ensures stopped.Some? ==>
                && Over(Now(), stopped.value) && (forall key :: key in background ==> background[key] != stopped.value)
                && KeyOf(entries[stopped.value]) == BackgroundKey(session, process)
                && entries[stopped.value].workingDirectory == workingDirectory
    {
      hide IsRun, Evolves, Rank, Later, Over, Registered, Apply;
      ghost var s0 := Now();
      var c, id;
      c, id, at := Look(session, process, workingDirectory);
      ghost var s1 := Now();
      found, stopped := id, None;
      if id.None? { return; }
      var ok := StopFound(c, terminates, cancelled);
      LaterOn(s0, s1, Now());
      if ok {
        stopped := id;
        RunLength(states, steps);
        RegisteredStays(states, steps, at, session, process, workingDirectory);
      }
    }

    /** Close takes its snapshot under the registry's lock, in whatever order the map is walked. */
    method Snapshot(c: nat) returns (order: seq<nat>)
      requires Valid() && c < |calls| && calls[c] == CloseCall([], 0, Snapshotting, false)
      modifies this
      ensures Continues() && IsOrderOf(order, old(background)) && background == old(background)
      ensures calls == old(calls)[c := CloseCall(order, 0, CheckingNext, false)]
    {
      hide IsRun, Later;
      order := [];
      var keys := background.Keys;
      while keys != {}
        invariant keys <= background.Keys
        invariant forall k :: 0 <= k < |order| ==> order[k] in background.Values
        invariant forall key :: key in background && key !in keys ==> background[key] in order
      {
        var key :| key in keys;
        order := order + [background[key]];
        keys := keys - {key};
      }
      calls := calls[c := CloseCall(order, 0, CheckingNext, false)];
      Record(CloseStep(c, TakeSnapshot(order)));
    }

    /** A move of Close that touches no entry. */
    method CloseMoves(c: nat, act: CloseAct, next: Call)
      requires Valid() && c < |calls| && calls[c].CloseCall? && !act.MarkNext?
      requires CloseNext(Now(), c, act) == Some(WithCall(Now(), c, next))
      modifies this
      ensures Continues() && entries == old(entries) && background == old(background)
      ensures calls == old(calls)[c := next]
    {
      hide IsRun, Later, CloseNext;
      calls := calls[c := next];
      Record(CloseStep(c, act));
    }

    /** setReason by Close. */
    method MarkClosing(c: nat)
      requires Valid() && c < |calls| && calls[c].CloseCall? && calls[c].close == MarkingNext
      requires calls[c].index < |calls[c].snapshot| && calls[c].snapshot[calls[c].index] < |entries|
      modifies this
      ensures Continues() && background == old(background) && |entries| == |old(entries)|
      ensures calls == old(calls)[c := old(calls[c]).(close := TerminatingNext)]
    {
      hide IsRun, Later;
      var id := calls[c].snapshot[calls[c].index];
      if entries[id].status.reason.None? {
        entries := entries[id := entries[id].(status := entries[id].status.(reason := Some(Stopped)))];
      }
      calls := calls[c := calls[c].(close := TerminatingNext)];
      assert entries == Marked(old(Now()), id).entries;
      Record(CloseStep(c, MarkNext));
    }

    /** A running entry is marked, terminated and awaited. */
    method CloseRunning(c: nat, terminates: bool, cancelled: bool)
      requires Valid() && c < |calls| && calls[c].CloseCall? && calls[c].close == MarkingNext
      requires calls[c].index < |calls[c].snapshot| && calls[c].snapshot[calls[c].index] < |entries|
      modifies this
      ensures Continues() && c < |calls|
      ensures calls[c] == old(calls[c]).(index := old(calls[c]).index + 1, close := CheckingNext,
                                         failed := old(calls[c]).failed || !terminates || cancelled)
    {
      hide IsRun, Evolves, Rank, Later, Apply;
      var call := calls[c];
      var id := call.snapshot[call.index];
      var next := call.(index := call.index + 1, close := CheckingNext);
      ghost var s0 := Now();
      MarkClosing(c);
      ghost var s1 := Now();
      CallYields(c);
      ghost var s2 := Now();
      LaterOn(s0, s1, s2);
      CloseMoves(c, TerminateNext(terminates),
                 if terminates then call.(close := AwaitingNext) else next.(failed := true));
      ghost var s3 := Now();
      LaterOn(s0, s2, s3);
      if !terminates { return; }
      if cancelled {
        CallYields(c);
        ghost var s4 := Now();
        LaterOn(s0, s3, s4);
        CloseMoves(c, CancelNext, next.(failed := true));
        LaterOn(s0, s4, Now());
        return;
      }
      AwaitDone(c, id);
      ghost var s4 := Now();
      LaterOn(s0, s3, s4);
      CloseMoves(c, WakeNext, next);
      LaterOn(s0, s4, Now());
    }

    /** One turn of Close's loop. */
    method CloseEntry(c: nat, terminates: bool, cancelled: bool)
      requires Valid() && c < |calls| && calls[c].CloseCall? && calls[c].close == CheckingNext
      requires calls[c].index < |calls[c].snapshot|
      modifies this
      ensures Continues() && c < |calls| && calls[c].CloseCall? && calls[c].close == CheckingNext
      ensures calls[c].index == old(calls[c]).index + 1 && calls[c].snapshot == old(calls[c]).snapshot
      ensures calls[c].failed ==> old(calls[c]).failed || !terminates || cancelled
      ensures old(calls[c]).failed ==> calls[c].failed
    {
      hide IsRun, Evolves, Rank, Later, Apply;
      ghost var s0 := Now();
      CallYields(c);
      ghost var s1 := Now();
      var call := calls[c];
      SnapshotHolds(c);
      var running := entries[call.snapshot[call.index]].status.state == Running;
      CloseMoves(c, CheckNext, if running then call.(close := MarkingNext)
                               else call.(index := call.index + 1, close := CheckingNext));
      ghost var s2 := Now();
      LaterOn(s0, s1, s2);
      if running {
        CallYields(c);
        ghost var s3 := Now();
        LaterOn(s0, s2, s3);
        CloseRunning(c, terminates, cancelled);
        LaterOn(s0, s3, Now());
      }
    }

    lemma SnapshotHolds(c: nat)
      requires Valid() && c < |calls| && calls[c].CloseCall?
      ensures forall k :: 0 <= k < |calls[c].snapshot| ==> calls[c].snapshot[k] < |entries|
    {
      hide Apply, EntryInv;
      RunKeeps(states, steps, |steps|);
      assert CallOk(Now(), calls[c]);
    }

    /** Close. Every process that was registered when it looked is finished when it returns without an error, and
        it returns without one unless a tree could not be terminated or the context ended. */
    method Close(terminates: nat -> bool, cancelled: bool) returns (ok: bool, ghost at: nat)
      requires Valid()
      modifies this
      ensures Continues() && |old(states)| <= at < |states|
      ensures ok ==> forall key :: key in states[at].registry ==> Over(Now(), states[at].registry[key])
      ensures !cancelled && (forall id :: terminates(id)) ==> ok
    {
      hide IsRun, Evolves, Rank, Later, Over, Apply;
      ghost var s0 := Now();
      var c := |calls|;
      calls := calls + [CloseCall([], 0, Snapshotting, false)];
      CallCloseStep(s0);
      Record(CallClose);
      ghost var s1 := Now();
      CallYields(c);
      ghost var s2 := Now();
      LaterOn(s0, s1, s2);
      RunLength(old(states), old(steps));
      RunLength(states, steps);
      at := |steps|;
      ghost var before := states;
      var order := Snapshot(c);
      LaterOn(s0, s2, Now());
      var i := 0;
      while i < |order|
        invariant 0 <= i <= |order| && Continues() && before <= states
        invariant c < |calls| && calls[c].CloseCall? && calls[c].snapshot == order
        invariant calls[c].index == i && calls[c].close == CheckingNext
        invariant !cancelled && (forall id :: terminates(id)) ==> !calls[c].failed
      {
        ghost var s3 := Now();
        CloseEntry(c, terminates(order[i]), cancelled);
        LaterOn(s0, s3, Now());
        i := i + 1;
      }
      ok := !calls[c].failed;
      ghost var s4 := Now();
      CloseMoves(c, CheckNext, calls[c].(close := CloseReturned));
      LaterOn(s0, s4, Now());
      RunLength(states, steps);
      ReturnsAreFinal(states, steps, |steps|, c);
    }
  }

  lemma CallCloseStep(s: State)
    ensures Apply(s, CallClose) == Some(s.(calls := s.calls + [CloseCall([], 0, Snapshotting, false)]))
  {
  }

  /** What was once registered keeps its key and its directory. */
  lemma RegisteredStays(states: seq<State>, steps: seq<Step>, at: nat, session: string, process: string,
                        workingDirectory: string)
    requires IsRun(states, steps) && at < |states|
    requires Registered(states[at], session, process, workingDirectory).Some?
    ensures var id := Registered(states[at], session, process, workingDirectory).value;
            && id < |states[|steps|].entries| && KeyOf(states[|steps|].entries[id]) == BackgroundKey(session, process)
            && states[|steps|].entries[id].workingDirectory == workingDirectory
  {
    hide Apply, EntryInv, BackgroundKey;
    RunKeeps(states, steps, at);
    SettledForGood(states, steps, at, |steps|, Registered(states[at], session, process, workingDirectory).value);
  }

  lemma RunLength(states: seq<State>, steps: seq<Step>)
    requires IsRun(states, steps)
    ensures |states| == |steps| + 1
  {
  }

  lemma CallStopStep(s: State, session: string, process: string, workingDirectory: string)
    ensures Apply(s, CallStop(session, process, workingDirectory)) ==
              Some(s.(calls := s.calls + [StopCall(session, process, workingDirectory, Finding)]))
  {
  }

  lemma EvolvedIdentity(e: Entry, f: Entry)
    requires Evolves(e, f)
    ensures f.session == e.session && f.process == e.process && f.workingDirectory == e.workingDirectory
  {
  }

  lemma LaterEntry(s: State, t: State, id: nat)
    requires Later(s, t) && id < |s.entries|
    ensures id < |t.entries| && Evolves(s.entries[id], t.entries[id])
    ensures Rank(t.entries[id].monitor) <= Rank(s.entries[id].monitor)
  {
  }

  lemma EndedIsClosed(e: Entry)
    requires EntryInv(e) && e.monitor.Ended?
    ensures e.status.closes > 0
  {
  }

  // ----- What each move of a monitor leaves behind -----

  lemma EnabledByPlace(e: Entry, f: Entry, act: MonitorAct)
    requires e.monitor == f.monitor && MonitorNext(e, act).Some?
    ensures MonitorNext(f, act).Some?
  {
  }

  lemma SettleEnabled(e: Entry, now: int)
    requires e.monitor.Finishing?
    ensures MonitorNext(e, Settle(now)).Some?
  {
  }

  lemma SettleWrites(e: Entry, now: int, f: Entry)
    requires EntryInv(e) && e.monitor.Finishing? && MonitorNext(e, Settle(now)) == Some(f)
    ensures f.monitor == ClosingDone && f.status.state == e.monitor.final != Running
    ensures f.status.exitCode == e.monitor.code && MonitorNext(f, CloseDone).Some?
  {
  }

  lemma CloseEnds(e: Entry, f: Entry, g: Entry)
    requires e.status.state != Running && Evolves(e, f) && EntryInv(g) && MonitorNext(f, CloseDone) == Some(g)
    ensures g.monitor == Ended && g.status.closes == 1
    ensures g.status.state == e.status.state && g.status.exitCode == e.status.exitCode
  {
  }

  /** A monitor that is about to finish with what its world calls for. */
  predicate WillLeave(world: MonitorWorld, e: Entry)
  {
    && e.monitor.Finishing?
    && MonitorLeaves(world, e.status.(state := e.monitor.final, exitCode := e.monitor.code))
    && (world.hasExit && world.hasTimer && !world.exitFirst ==> e.status.reason.Some?)
  }

  lemma WillLeavePlace(world: MonitorWorld, e: Entry)
    requires WillLeave(world, e)
    ensures e.monitor.Finishing?
  {
  }

  lemma ChannelTells(world: MonitorWorld, e: Entry)
    requires (!world.hasExit || !world.hasTimer) && e.monitor == Finishing(RuntimeFailure, None)
    ensures WillLeave(world, e)
  {
  }

  lemma ExitTells(world: MonitorWorld, e: Entry, f: Entry)
    requires world.hasExit && world.hasTimer && world.exitFirst
    requires EntryInv(e) && e.monitor == GotExit(world.exit) && MonitorNext(e, ReadReason) == Some(f)
    ensures WillLeave(world, f)
  {
  }

  lemma TimerLeadsOn(e: Entry, f: Entry)
    requires EntryInv(e) && e.monitor == TimerFired && MonitorNext(e, SetTimedOut) == Some(f)
    ensures f.monitor == Terminating || f.monitor == AwaitingExit(Stopped)
  {
  }

  lemma TerminateTells(world: MonitorWorld, e: Entry, f: Entry)
    requires world.hasExit && world.hasTimer && !world.exitFirst
    requires EntryInv(e) && e.monitor == Terminating && MonitorNext(e, Terminate(world.terminates)) == Some(f)
    ensures WillLeave(world, f)
  {
  }

  lemma LateExitTells(world: MonitorWorld, e: Entry, f: Entry)
    requires world.hasExit && world.hasTimer && !world.exitFirst
    requires EntryInv(e) && e.monitor == AwaitingExit(Stopped) && MonitorNext(e, ReceiveLateExit(world.exit)) == Some(f)
    ensures WillLeave(world, f)
  {
  }

  lemma FinishTells(world: MonitorWorld, e: Entry, f: Entry)
    requires WillLeave(world, e) && Evolves(e, f)
    requires f.status.state == e.monitor.final && f.status.exitCode == e.monitor.code
    ensures MonitorLeaves(world, f.status)
  {
  }

  lemma LaterLength(s: State, t: State)
    requires Later(s, t)
    ensures |s.entries| <= |t.entries| && |s.calls| <= |t.calls|
  {
  }

  lemma Spawns(e: Entry)
    requires e.monitor == Unspawned
    ensures MonitorNext(e, Spawn) == Some(e.(monitor := Selecting))
  {
  }
}
