/** internal/platform/windows/installer: seven leases acquired in order, undone last first or committed. */
module Installer {
  import opened Protocol
  import opened OwnedTree
  import opened StageLeases

  // ----- The installation lease: what is held -----

  function AcquisitionOrder(): (order: seq<Kind>)
    ensures |order| == 7
  {
    [Accounts, Filesystem, Root, Service, RunnerStorage, Registration, RunnerService]
  }

  const ROLLBACK_ORDER := [RunnerService, Registration, RunnerStorage, Service, Root, Filesystem, Accounts]
  const FINAL_COMMITS := [Registration, RunnerStorage, Accounts, Filesystem, Root]

  /** The first n kinds in order of acquisition. */
  function First(n: nat): seq<Kind>
    requires n <= |AcquisitionOrder()|
  {
    AcquisitionOrder()[..n]
  }

  function Acquisitions(kinds: seq<Kind>): seq<Event>
  {
    seq(|kinds|, i requires 0 <= i < |kinds| => Acquired(kinds[i]))
  }

  /** Each of the kinds closed once, in reverse. */
  function Closings(kinds: seq<Kind>): (events: seq<Event>)
    ensures |events| == |kinds|
    ensures forall i :: 0 <= i < |kinds| ==> events[i] == ClosedLease(kinds[|kinds| - 1 - i])
  {
    seq(|kinds|, i requires 0 <= i < |kinds| => ClosedLease(kinds[|kinds| - 1 - i]))
  }

  function Commits(kinds: seq<Kind>): seq<Event>
  {
    seq(|kinds|, i requires 0 <= i < |kinds| => CommittedLease(kinds[i]))
  }

  type Stages = map<Kind, Held>

  function HeldKinds(view: Stages, order: seq<Kind>): seq<Kind>
    decreases |order|
  {
    if order == [] then []
    else
      var last := order[|order| - 1];
      HeldKinds(view, order[..|order| - 1]) + if last in view then [last] else []
  }

  /** The machine after every held stage has been taken back, the last one first. */
  function HeldBack(view: Stages, order: seq<Kind>, m: Machine): Machine
    decreases |order|
  {
    if order == [] then m
    else
      var last := order[|order| - 1];
      HeldBack(view, order[..|order| - 1], if last in view then Back(m, view[last]) else m)
  }

  /** Each held stage is intact once the later ones have been taken back. */
  ghost predicate AllIntact(view: Stages, order: seq<Kind>, m: Machine)
    decreases |order|
  {
    order == [] ||
    var last, front := order[|order| - 1], order[..|order| - 1];
    if last in view then Intact(m, view[last]) && AllIntact(view, front, Back(m, view[last]))
    else AllIntact(view, front, m)
  }

  /** The named changes of the held stages, in order. */
  function HeldChanges(view: Stages, order: seq<Kind>): seq<Change>
    decreases |order|
  {
    if order == [] then []
    else
      var last := order[|order| - 1];
      HeldChanges(view, order[..|order| - 1])
      + if last in view && view[last].undo.Changes? then view[last].undo.changes else []
  }

  lemma {:induction false} HeldObjects(view: Stages, order: seq<Kind>, m: Machine)
    ensures HeldBack(view, order, m).objects == UndoneAll(m.objects, HeldChanges(view, order))
    decreases |order|
  {
    if order != [] {
      var last, front := order[|order| - 1], order[..|order| - 1];
      var next := if last in view then Back(m, view[last]) else m;
      HeldObjects(view, front, next);
      var changes := if last in view && view[last].undo.Changes? then view[last].undo.changes else [];
      UndoneAppend(m.objects, HeldChanges(view, front), changes);
      assert UndoneAll(m.objects, []) == m.objects;
    }
  }

  /** Taking stages back depends on the tree only as far as the tree goes. */
  lemma {:induction false} HeldNodes(view: Stages, order: seq<Kind>, m: Machine, n: Machine)
    requires m.nodes == n.nodes
    ensures HeldBack(view, order, m).nodes == HeldBack(view, order, n).nodes
    ensures AllIntact(view, order, m) <==> AllIntact(view, order, n)
    decreases |order|
  {
    hide Ours, Untouched;
    if order != [] {
      var last, front := order[|order| - 1], order[..|order| - 1];
      HeldNodes(view, front, if last in view then Back(m, view[last]) else m,
                if last in view then Back(n, view[last]) else n);
    }
  }

  /** Only the kinds of the order matter. */
  lemma {:induction false} HeldWithout(view: Stages, other: Stages, order: seq<Kind>, m: Machine)
    requires forall kind :: kind in order ==>
              (kind in view <==> kind in other) && (kind in view ==> view[kind] == other[kind])
    ensures HeldKinds(view, order) == HeldKinds(other, order) && HeldChanges(view, order) == HeldChanges(other, order)
    ensures HeldBack(view, order, m) == HeldBack(other, order, m)
    ensures AllIntact(view, order, m) <==> AllIntact(other, order, m)
    decreases |order|
  {
    hide Intact, Back;
    if order != [] {
      var last := order[|order| - 1];
      assert last in order;
      HeldWithout(view, other, order[..|order| - 1], if last in view then Back(m, view[last]) else m);
    }
  }

  lemma HeldStep(view: Stages, front: seq<Kind>, kind: Kind, m: Machine)
    ensures HeldKinds(view, front + [kind])
         == if kind in view then HeldKinds(view, front) + [kind] else HeldKinds(view, front)
    ensures HeldBack(view, front + [kind], m) == HeldBack(view, front, if kind in view then Back(m, view[kind]) else m)
    ensures AllIntact(view, front + [kind], m) <==>
              if kind in view then Intact(m, view[kind]) && AllIntact(view, front, Back(m, view[kind]))
              else AllIntact(view, front, m)
    ensures kind !in view ==> HeldChanges(view, front + [kind]) == HeldChanges(view, front)
  {
    hide Intact, Back;
    assert (front + [kind])[..|front|] == front;
    assert HeldKinds(view, front) + [] == HeldKinds(view, front);
    assert HeldChanges(view, front) + [] == HeldChanges(view, front);
  }

  /** Exactly the first n kinds are held. */
  ghost predicate HoldsFirst(kinds: set<Kind>, n: nat)
  {
    && n <= |AcquisitionOrder()|
    && forall i :: 0 <= i < |AcquisitionOrder()| ==> (AcquisitionOrder()[i] in kinds <==> i < n)
  }

  lemma {:induction false} HeldFirst(view: Stages, n: nat, k: nat, m: Machine)
    requires HoldsFirst(view.Keys, n) && n <= k <= |AcquisitionOrder()|
    ensures HeldKinds(view, First(k)) == First(n)
    ensures HeldBack(view, First(k), m) == HeldBack(view, First(n), m)
    ensures AllIntact(view, First(k), m) <==> AllIntact(view, First(n), m)
    ensures HeldChanges(view, First(k)) == HeldChanges(view, First(n))
  {
    hide AcquisitionOrder, Intact, Back, HeldKinds, HeldBack, AllIntact, HeldChanges;
    if k > n {
      var next := AcquisitionOrder()[k - 1];
      HeldFirst(view, n, k - 1, m);
      assert First(k) == First(k - 1) + [next] && next !in view;
      HeldStep(view, First(k - 1), next, m);
    } else {
      AllHeld(view, n);
    }
  }

  lemma {:induction false} AllHeld(view: Stages, n: nat)
    requires n <= |AcquisitionOrder()| && forall i :: 0 <= i < n ==> AcquisitionOrder()[i] in view
    ensures HeldKinds(view, First(n)) == First(n)
  {
    hide AcquisitionOrder, Intact, Back, HeldKinds, HeldBack, AllIntact, HeldChanges;
    if n > 0 {
      var last := AcquisitionOrder()[n - 1];
      AllHeld(view, n - 1);
      assert First(n) == First(n - 1) + [last];
      HeldStep(view, First(n - 1), last, Machine(map[], map[]));
    } else {
      NoKinds(view);
    }
  }

  lemma NoKinds(view: Stages)
    ensures HeldKinds(view, First(0)) == First(0)
  {
  }

  lemma TheOrder()
    ensures |AcquisitionOrder()| == 7
    ensures AcquisitionOrder()[0] == Accounts && AcquisitionOrder()[1] == Filesystem && AcquisitionOrder()[2] == Root
    ensures AcquisitionOrder()[3] == Service && AcquisitionOrder()[4] == RunnerStorage
    ensures AcquisitionOrder()[5] == Registration && AcquisitionOrder()[6] == RunnerService
  {
  }

  lemma OrderDistinct(n: nat)
    requires n < 7
    ensures AcquisitionOrder()[n] !in First(n)
    ensures First(n + 1) == First(n) + [AcquisitionOrder()[n]]
    ensures forall i :: 0 <= i < 7 ==> (AcquisitionOrder()[i] == AcquisitionOrder()[n] <==> i == n)
  {
  }

  lemma AllFirst()
    ensures First(7) == AcquisitionOrder() && forall kind :: kind in First(7)
  {
    forall kind ensures kind in AcquisitionOrder() {
      match kind {
        case Accounts => assert AcquisitionOrder()[0] == kind;
        case Filesystem => assert AcquisitionOrder()[1] == kind;
        case Root => assert AcquisitionOrder()[2] == kind;
        case Service => assert AcquisitionOrder()[3] == kind;
        case RunnerStorage => assert AcquisitionOrder()[4] == kind;
        case Registration => assert AcquisitionOrder()[5] == kind;
        case RunnerService => assert AcquisitionOrder()[6] == kind;
      }
    }
  }

  /** The rollback order is the acquisition order reversed. */
  lemma NextToClose(i: nat)
    requires i < |ROLLBACK_ORDER|
    ensures First(7 - i) == First(6 - i) + [ROLLBACK_ORDER[i]] && ROLLBACK_ORDER[i] !in First(6 - i)
  {
  }

  lemma ClosingsSplit(kinds: seq<Kind>, last: Kind)
    ensures Closings(kinds + [last]) == [ClosedLease(last)] + Closings(kinds)
  {
  }

  /** Acquiring the next stage, or doing more in the last one, leaves the way back as it was. */
  lemma StageOnTop(before: Stages, after: Stages, n: nat, m: Machine, now: Machine)
    requires n < 7
    requires var kind := AcquisitionOrder()[n];
             && kind in after && HoldsFirst(after.Keys, n + 1)
             && (forall other :: other in First(n) ==> other in before && after[other] == before[other])
             && Intact(now, after[kind]) && Back(now, after[kind]) == m
    requires AllIntact(before, First(n), m)
    ensures AllIntact(after, First(7), now)
    ensures HeldBack(after, First(7), now) == HeldBack(before, First(n), m)
  {
    OrderDistinct(n);
    assert forall other :: other in First(n) ==> other in after;
    hide AcquisitionOrder, First, HeldKinds, HeldBack, HeldChanges, AllIntact, HoldsFirst, Intact, Back;
    HeldFirst(after, n + 1, 7, now);
    HeldStep(after, First(n), AcquisitionOrder()[n], now);
    HeldWithout(before, after, First(n), m);
  }

  /** What is held splits into the last stage and the ones below it. */
  lemma StageTop(view: Stages, n: nat, now: Machine)
    requires n < 7 && HoldsFirst(view.Keys, n + 1) && AllIntact(view, First(7), now)
    ensures var kind := AcquisitionOrder()[n];
            && kind in view && Intact(now, view[kind]) && AllIntact(view, First(n), Back(now, view[kind]))
            && HeldBack(view, First(7), now) == HeldBack(view, First(n), Back(now, view[kind]))
  {
    OrderDistinct(n);
    assert AcquisitionOrder()[n] in view;
    hide AcquisitionOrder, First, HeldKinds, HeldBack, HeldChanges, AllIntact, HoldsFirst, Intact, Back;
    HeldFirst(view, n + 1, 7, now);
    HeldStep(view, First(n), AcquisitionOrder()[n], now);
  }

  // ----- The installation lease -----

  datatype CommitOutcome = NothingToCommit | RolledBack | RunnerServiceLeft | FullyCommitted

  /** One of the kinds is a service whose handle will not close. */
  predicate Jam(kinds: set<Kind>, stuck: set<Kind>)
  {
    exists kind :: kind in kinds && IsService(kind) && kind in stuck
  }

  ghost predicate SubMap(a: map<Kind, StageLease>, b: map<Kind, StageLease>)
  {
    forall kind :: kind in a ==> kind in b && a[kind] == b[kind]
  }

  /** Every lease but those of some kinds has been closed without having been committed. */
  ghost predicate AllEnded(leases: map<Kind, StageLease>, but: set<Kind>)
    reads leases.Values
  {
    forall kind :: kind in leases ==> leases[kind].kind == kind && (kind in but || leases[kind].Ended())
  }

  class Lease {
    const host: Host
    var held: map<Kind, StageLease>
    var closed: bool
    ghost const start: Machine
    ghost const earlier: seq<Event>
    ghost const excused: bool
    ghost var stages: Stages
    ghost var tail: seq<Event>

    /** `start` and `earlier` are the machine and the log at this moment; `stages` is what the held leases have to
        take back, and `tail` what a stage that could not be provisioned has logged. Something may fail to be taken
        back if it is `excused`. */
    constructor (host: Host, ghost excused: bool)
      ensures this.host == host && held == map[] && stages == map[] && !closed && tail == []
      ensures start == host.Now() && earlier == host.log && this.excused == excused
    {
      this.host, held, stages, closed, tail, start, earlier := host, map[], map[], false, [], host.Now(), host.log;
      this.excused := excused;
    }

    /** The lease is this host's, open, and has that much to take back; only the runner's storage is ever written to
        by the listener, and its root has been made. */
    ghost predicate Ready(kind: Kind, lease: StageLease, stage: Held)
      reads lease
    {
      && lease.kind == kind && lease.host == host && lease.Open() && lease.View() == stage
      && (stage.undo.Created? <==> Stores(kind))
      && if kind == RunnerStorage then stage.undo.staging.root in stage.undo.staging.directories
         else stage.phase == Making
    }

    /** While registration is held, what the listener has written is sealed, and it has not removed it again. */
    ghost predicate Proper()
      reads this, held.Values
    {
      && stages.Keys == held.Keys && (host.faulty ==> excused) && host.Orderly()
      && (forall kind :: kind in held ==> Ready(kind, held[kind], stages[kind]))
      && (Registration in held ==> RunnerStorage in held && stages[RunnerStorage].phase == Sealed)
    }

    lemma StillReady(kind: Kind, lease: StageLease, stage: Held)
      requires lease.kind == kind && lease.host == host && lease.Open() && lease.View() == stage
      requires stage.undo.Created? <==> Stores(kind)
      requires if kind == RunnerStorage then stage.undo.staging.root in stage.undo.staging.directories
               else stage.phase == Making
      ensures Ready(kind, lease, stage)
    {
    }

    lemma ReadyMeans(kind: Kind)
      requires Proper() && kind in held
      ensures held[kind].kind == kind && held[kind].host == host && held[kind].Open()
      ensures held[kind].View() == stages[kind]
      ensures stages[kind].undo.Created? <==> Stores(kind)
      ensures if kind == RunnerStorage then stages[kind].undo.staging.root in stages[kind].undo.staging.directories
              else stages[kind].phase == Making
    {
      assert Ready(kind, held[kind], stages[kind]);
    }

    /** The way back is intact and leads to the start, unless something could not be taken back. */
    ghost predicate LeadsBack()
      reads this, host
    {
      && (host.broken ==> excused)
      && (!host.broken ==>
            && Closed(host.nodes) && AllIntact(stages, First(7), host.Now())
            && HeldBack(stages, First(7), host.Now()) == start)
    }

    /** Provisioning got as far as the first n stages. */
    ghost predicate Reached(n: nat)
      reads this, host, held.Values
    {
      && n <= 7 && !closed && Proper() && HoldsFirst(held.Keys, n) && LeadsBack()
      && host.log == earlier + Acquisitions(First(n)) + tail
    }

    /** One acquisition of provision, with the stage's field set only on success. */
    method Acquire(kind: Kind, targets: seq<Target>, ghost n: nat) returns (ok: bool)
      requires n < 7 && kind == AcquisitionOrder()[n] && !Stores(kind) && Reached(n) && tail == []
      requires kind == Registration ==> RunnerStorage in stages && stages[RunnerStorage].phase == Sealed
      modifies this`held, this`stages, this`tail, host
      ensures ok ==>
                && host.broken == old(host.broken) && kind in stages && stages == old(stages)[kind := stages[kind]]
                && kind in held && held == old(held)[kind := held[kind]]
      ensures if ok then Reached(n + 1) && tail == [] else Reached(n) && tail == [ClosedLease(kind)]
      ensures fresh(held.Values - old(held.Values))
      ensures ok ==> host.Now() == Machine(Applied(old(host.objects), targets), old(host.nodes))
      ensures !ok ==> held == old(held) && stages == old(stages)
      ensures host.willing ==> ok
    {
      hide AcquisitionOrder, First, HeldBack, AllIntact, HoldsFirst, Intact, Back, Acquisitions, Closed, Ready;
      ghost var before, now := stages, host.Now();
      var lease := Provision(host, kind, targets);
      ok := lease != null;
      if ok {
        ghost var owned := held;
        held, stages := held[kind := lease], stages[kind := lease.View()];
        assert stages.Keys == held.Keys;
        StillReady(kind, lease, lease.View());
        Added(owned, held, n, kind);
        FlatIntact(host.Now(), lease.View());
        if !host.broken { StageAdded(before, stages, n, now, host.Now()); }
        StageLogged(n, earlier);
      } else {
        tail := [ClosedLease(kind)];
        assert host.log == earlier + Acquisitions(First(n)) + tail;
      }
    }

    method AcquireTree(kind: Kind, root: Path, items: seq<Item>, ghost n: nat) returns (ok: bool)
      requires n < 7 && kind == AcquisitionOrder()[n] && Stores(kind) && root != [] && Reached(n) && tail == []
      requires items != [] && items[0] == DirectoryItem(root)
      modifies this`held, this`stages, this`tail, host
      ensures ok ==> host.broken == old(host.broken)
      ensures if ok then Reached(n + 1) && tail == [] else Reached(n) && tail == [ClosedLease(kind)]
      ensures fresh(held.Values - old(held.Values))
      ensures ok ==> host.Now() == Machine(old(host.objects), AllPlaced(old(host.nodes), items))
      ensures ok ==>
                && kind in stages && stages[kind].undo == Created(AllNoted(Staging(root, [], []), items))
                && stages[kind].phase == Making && kind in held && fresh(held[kind])
      ensures host.willing && AllMayBePlaced(Staging(root, [], []), old(host.nodes), items) ==> ok
    {
      hide AcquisitionOrder, First, HeldBack, AllIntact, HoldsFirst, Intact, Back, Acquisitions, Closed, Ready;
      ghost var before, now := stages, host.Now();
      var lease := ProvisionTree(host, kind, root, items);
      ok := lease != null;
      if ok {
        ghost var owned := held;
        held, stages := held[kind := lease], stages[kind := lease.View()];
        assert stages.Keys == held.Keys;
        NotedRoot(root, items);
        StillReady(kind, lease, lease.View());
        Added(owned, held, n, kind);
        if !host.broken {
          IntactIsClosed(host.Now(), lease.View());
          StageAdded(before, stages, n, now, host.Now());
        }
        StageLogged(n, earlier);
      } else {
        tail := [ClosedLease(kind)];
        assert host.log == earlier + Acquisitions(First(n)) + tail;
      }
    }

    /** Something made through the stage acquired last. */
    method MakeBelow(kind: Kind, item: Item, ghost n: nat) returns (ok: bool)
      requires 0 < n <= 7 && kind == AcquisitionOrder()[n - 1] && Stores(kind) && Reached(n) && tail == []
      requires kind in held && kind in stages && stages[kind].phase == Making
      modifies this`stages, held[kind], host`nodes
      ensures Reached(n) && tail == [] && kind in stages && stages[kind].phase == Making
      ensures Placing(old(stages)[kind].undo, stages[kind].undo, old(host.nodes), host.nodes, item, ok)
      ensures host.willing && old(stages)[kind].undo.Created? ==>
                MayPlace(old(stages)[kind].undo.staging, old(host.nodes), item) ==> ok
    {
      hide AcquisitionOrder, First, HeldBack, AllIntact, HoldsFirst, Intact, Back, Acquisitions, Closed, Ready;
      ghost var before, now := stages, host.Now();
      if !host.broken { StageTop(before, n - 1, now); }
      ok := MakeThrough(kind, item);
      if !host.broken {
        ReadyMeans(kind);
        IntactIsClosed(host.Now(), stages[kind]);
        StageMore(before, stages, n - 1, now, host.Now());
      }
    }

    method MakeThrough(kind: Kind, item: Item) returns (ok: bool)
      requires Proper() && kind in held && Stores(kind) && (!host.broken ==> Intact(host.Now(), stages[kind]))
      requires stages[kind].phase == Making
      modifies this`stages, held[kind], host`nodes
      ensures Proper() && stages == old(stages)[kind := stages[kind]] && stages[kind].phase == Making
      ensures !host.broken ==>
                && Intact(host.Now(), stages[kind])
                && Back(host.Now(), stages[kind]) == Back(old(host.Now()), old(stages)[kind])
      ensures Placing(old(stages)[kind].undo, stages[kind].undo, old(host.nodes), host.nodes, item, ok)
      ensures host.willing && old(stages)[kind].undo.Created? ==>
                MayPlace(old(stages)[kind].undo.staging, old(host.nodes), item) ==> ok
    {
      ReadyMeans(kind);
      hide Intact, Back, Ready;
      ghost var before := held[kind].undo;
      ok := held[kind].Make(item);
      RootStaysListed(before, held[kind].undo, old(host.nodes), host.nodes, item, ok);
      stages := stages[kind := held[kind].View()];
      assert stages.Keys == held.Keys;
      StillReady(kind, held[kind], stages[kind]);
    }

    /** Accounts and directory rights. */
    method AccountSteps(plan: Plan) returns (ok: bool, ghost n: nat)
      requires Reached(0) && tail == [] && held == map[]
      modifies this`held, this`stages, this`tail, host
      ensures n <= 2 && Reached(n) && fresh(held.Values) && (ok ==> n == 2) && Stopped(ok, n, tail)
      ensures ok ==> tail == [] && host.broken == old(host.broken)
      ensures ok ==>
                host.Now() == Machine(Applied(Applied(old(host.objects), plan.targets(Accounts)),
                                              plan.targets(Filesystem)),
                                      old(host.nodes))
      ensures host.willing ==> ok
    {
      TheOrder();
      hide Reached, Applied, AcquisitionOrder, First;
      n := 0;
      ok := Acquire(Accounts, plan.targets(Accounts), 0);
      if !ok { return; }
      n := 1;
      ok := host.Check();
      if !ok { return; }
      ok := Acquire(Filesystem, plan.targets(Filesystem), 1);
      if !ok { return; }
      n := 2;
      ok := host.Check();
    }

    /** Accounts, directory rights and the root with everything written into it. */
    method FirstSteps(plan: Plan) returns (ok: bool, ghost n: nat)
      requires Reached(0) && tail == [] && held == map[] && plan.root != []
      modifies this`held, this`stages, this`tail, host
      ensures n <= 3 && Reached(n) && fresh(held.Values) && (ok ==> n == 3) && Stopped(ok, n, tail)
      ensures ok ==> host.broken == old(host.broken)
      ensures ok ==> tail == [] && host.Now() == RootInstalled(plan, old(host.Now()))
      ensures host.willing && TreeFits(plan.root, old(host.nodes), RootItems(plan.root), RootFiles(plan)) ==> ok
    {
      TheOrder();
      hide Reached, AllMayBePlaced, AllPlaced, AllNoted, Applied, RootItems, RootFiles, AcquisitionOrder, First;
      ok, n := AccountSteps(plan);
      if !ok { return; }
      RootFirst(plan.root);
      ok := AcquireTree(Root, plan.root, RootItems(plan.root), 2);
      if !ok { return; }
      n := 3;
      ok := MakeAll(Root, RootFiles(plan), 3);
      if !ok { return; }
      ok := host.Check();
    }

    /** Files and directories below the stage acquired last, with a check of the context before each. */
    method MakeAll(kind: Kind, items: seq<Item>, ghost n: nat) returns (ok: bool)
      requires 0 < n <= 7 && kind == AcquisitionOrder()[n - 1] && Stores(kind) && Reached(n) && tail == []
      requires kind in held && kind in stages && stages[kind].undo.Created? && stages[kind].phase == Making
      modifies this`stages, held[kind], host`nodes
      ensures Reached(n) && kind in stages && stages[kind].phase == Making
      ensures ok ==> stages[kind].undo == Created(AllNoted(old(stages)[kind].undo.staging, items))
      ensures ok ==> host.nodes == AllPlaced(old(host.nodes), items)
      ensures host.willing && AllMayBePlaced(old(stages)[kind].undo.staging, old(host.nodes), items) ==> ok
    {
      hide Reached, AcquisitionOrder, MayPlace, Placed, Noted;
      ok := true;
      ghost var s := stages[kind].undo.staging;
      for i := 0 to |items|
        invariant Reached(n) && ok && kind in stages && stages[kind].undo == Created(AllNoted(s, items[..i]))
        invariant stages[kind].phase == Making
        invariant host.nodes == AllPlaced(old(host.nodes), items[..i])
      {
        ok := host.Check();
        if !ok { return; }
        ok := MakeBelow(kind, items[i], n);
        if !ok { return; }
        assert items[..i + 1][..i] == items[..i];
      }
      assert items[..|items|] == items;
    }

    /** The body of provision between the lease's creation and its success: any step may fail. */
    method Steps(plan: Plan) returns (ok: bool, ghost n: nat)
      requires Reached(0) && tail == [] && held == map[] && plan.root != [] && plan.runnerRoot != []
      requires !host.broken && (!Roomy(plan) ==> excused)
      modifies this`held, this`stages, this`tail, host
      ensures n <= 7 && Reached(n) && fresh(held.Values) && (ok ==> n == 7 && tail == []) && Stopped(ok, n, tail)
      ensures ok ==> host.Now() == Installed(plan, host.listener, old(host.Now()))
      ensures ok ==> Registered(host.nodes, plan.runnerRoot) && IsFile(host.nodes, plan.runnerRoot + SERVICE_EXECUTABLE)
      ensures host.willing && Installable(plan, old(host.nodes)) ==> ok
    {
      TheOrder();
      hide Reached, TreeFits, AllPlaced, Applied, RootItems, RootFiles, RunnerItems, RunnerFiles, AcquisitionOrder,
           First, Registered;
      ok, n := FirstSteps(plan);
      if !ok { return; }
      ok := Acquire(Service, plan.targets(Service), 3);
      if !ok { return; }
      n := 4;
      ok := host.Check();
      if !ok { return; }
      ok, n := RunnerSteps(plan);
    }

    /** The listener is run below the runner's root, if it can be started, and what it left is sealed. */
    method TendStorage(run: bool, removing: bool) returns (ok: bool)
      requires Proper() && RunnerStorage in held && (!host.broken ==> Intact(host.Now(), stages[RunnerStorage]))
      requires if removing then run && stages[RunnerStorage].phase == Sealed && Registration !in held
               else stages[RunnerStorage].phase == Making
      requires stages[RunnerStorage].undo.Created?
      requires !host.broken && run && !removing ==>
                 excused || HasRoom(host.nodes, stages[RunnerStorage].undo.staging.root)
      modifies this`stages, held[RunnerStorage], host`nodes, host`broken
      ensures Proper() && stages == old(stages)[RunnerStorage := stages[RunnerStorage]]
      ensures stages[RunnerStorage].phase == if !run then Making else if removing then Left else Sealed
      ensures stages[RunnerStorage].undo.Created?
      ensures Extends(old(stages)[RunnerStorage].undo.staging, stages[RunnerStorage].undo.staging)
      ensures host.nodes == if run then Listening(host.listener, removing, old(stages)[RunnerStorage].undo.staging.root,
                                                  old(host.nodes))
                            else old(host.nodes)
      ensures Breaks(old(host.broken), ok || !run, host.broken, excused, false)
      ensures old(host.broken) ==> host.broken
      ensures !host.broken ==>
                && Intact(host.Now(), stages[RunnerStorage])
                && Back(host.Now(), stages[RunnerStorage]) == Back(old(host.Now()), old(stages)[RunnerStorage])
                && (ok ==> Catalogued(host.nodes, stages[RunnerStorage].undo.staging.root,
                                      stages[RunnerStorage].undo.staging))
      ensures host.willing && !old(host.broken) && run && !removing ==>
                var root := old(stages)[RunnerStorage].undo.staging.root;
                old(HasRoom(host.nodes, root) && NamesFree(host.nodes, root)) ==> ok && Registered(host.nodes, root)
    {
      ReadyMeans(RunnerStorage);
      ghost var storage, before := stages[RunnerStorage], host.nodes;
      if !host.broken && run { WhatItLeaves(host, storage, removing); }
      hide Intact, Back, Ready, CanSeal, HasRoom, NamesFree, Registered, Catalogued, Listening, Host.Orderly;
      ok := held[RunnerStorage].Tend(run, removing);
      stages := stages[RunnerStorage := held[RunnerStorage].View()];
      assert stages.Keys == held.Keys;
      StillReady(RunnerStorage, held[RunnerStorage], stages[RunnerStorage]);
    }

    /** The same after the fifth stage: nothing but the storage's own way back is concerned. */
    method TendReached(run: bool, removing: bool) returns (ok: bool)
      requires Reached(5) && RunnerStorage in held && RunnerStorage in stages && stages[RunnerStorage].undo.Created?
      requires if removing then run && stages[RunnerStorage].phase == Sealed else stages[RunnerStorage].phase == Making
      requires !host.broken && run && !removing ==>
                 excused || HasRoom(host.nodes, stages[RunnerStorage].undo.staging.root)
      modifies this`stages, held[RunnerStorage], host`nodes, host`broken
      ensures Reached(5) && RunnerStorage in stages && stages[RunnerStorage].undo.Created?
      ensures stages[RunnerStorage].phase == if !run then Making else if removing then Left else Sealed
      ensures stages[RunnerStorage].undo.staging.root == old(stages)[RunnerStorage].undo.staging.root
      ensures host.nodes == if run then Listening(host.listener, removing, old(stages)[RunnerStorage].undo.staging.root,
                                                  old(host.nodes))
                            else old(host.nodes)
      ensures ok && run ==> host.broken == old(host.broken)
      ensures ok && !host.broken ==>
                Catalogued(host.nodes, stages[RunnerStorage].undo.staging.root, stages[RunnerStorage].undo.staging)
      ensures host.willing && !old(host.broken) && run && !removing ==>
                var root := old(stages)[RunnerStorage].undo.staging.root;
                old(HasRoom(host.nodes, root) && NamesFree(host.nodes, root)) ==> ok && Registered(host.nodes, root)
    {
      hide First, HeldBack, AllIntact, Intact, Back, Acquisitions, Closed, Ready, CanSeal, HasRoom, NamesFree,
           Registered, Catalogued, Listening, Host.Orderly, Proper;
      ghost var before, now := stages, host.Now();
      StorageIsFifth(held.Keys);
      ProperKeys();
      if !host.broken { StageTop(before, 4, now); }
      ok := TendStorage(run, removing);
      if !host.broken {
        IntactIsClosed(host.Now(), stages[RunnerStorage]);
        StageMore(before, stages, 4, now, host.Now());
      }
    }

    /** A file is on the storage's list, and there. */
    method VerifyOwned(path: Path) returns (ok: bool)
      requires Proper() && RunnerStorage in held && stages[RunnerStorage].undo.Created?
      ensures ok ==> path in stages[RunnerStorage].undo.staging.files && IsFile(host.nodes, path)
      ensures host.willing && path in stages[RunnerStorage].undo.staging.files && IsFile(host.nodes, path) ==> ok
    {
      ReadyMeans(RunnerStorage);
      ok := host.Check();
      ok := ok && path in held[RunnerStorage].undo.staging.files && path in host.nodes && host.nodes[path].File?;
    }

    /** The listener configures the runner, and whatever came of it is sealed. */
    method Configure(plan: Plan) returns (ok: bool, started: bool)
      requires Reached(5) && RunnerStorage in held && RunnerStorage in stages && !host.broken
      requires stages[RunnerStorage].phase == Making && stages[RunnerStorage].undo == Created(RunnerStaging(plan))
      requires !Roomy(plan) ==> excused
      modifies this`stages, held[RunnerStorage], host`nodes, host`broken
      ensures Reached(5) && RunnerStorage in stages && stages[RunnerStorage].undo.Created?
      ensures stages[RunnerStorage].phase == if started then Sealed else Making
      ensures ok ==>
                && started && !host.broken
                && host.nodes == Listening(host.listener, false, plan.runnerRoot, old(host.nodes))
                && forall p :: plan.runnerRoot < p && IsFile(host.nodes, p) ==>
                     p in stages[RunnerStorage].undo.staging.files
      ensures host.willing && Registrable(plan) ==>
                && ok && Registered(host.nodes, plan.runnerRoot)
                && IsFile(host.nodes, plan.runnerRoot + SERVICE_EXECUTABLE)
    {
      hide LeadsBack, AcquisitionOrder, First, Proper, Intact, RunnerStaging, Registrable, Roomy, HasRoom, NamesFree,
           Closed, StaysBelow;
      StagingRoot(plan);
      StorageOwned();
      ReadyToRegister(plan, host.Now(), stages[RunnerStorage]);
      ghost var before := host.nodes;
      OnlyBelow(5);
      hide Reached, Listening, Catalogued, Registered;
      var alive := host.Check();
      started := host.Check();
      started := started && alive;
      var sealed := TendReached(started, false);
      var exited := host.Check();
      ok := started && sealed && exited;
      if ok { FilesListed(plan, host.listener, before, host.nodes, stages[RunnerStorage].undo.staging); }
    }

    /** VerifyRegistrationState: its three files are there and on the list. */
    method VerifyRegistration(plan: Plan) returns (ok: bool)
      requires Proper() && RunnerStorage in held && stages[RunnerStorage].undo.Created?
      ensures ok ==>
                forall k :: 0 <= k < |REGISTRATION_FILES| ==>
                  Produced(plan.runnerRoot, k, host.nodes, stages[RunnerStorage].undo.staging)
      ensures (forall k :: 0 <= k < |REGISTRATION_FILES| ==>
                 Produced(plan.runnerRoot, k, host.nodes, stages[RunnerStorage].undo.staging)) && host.willing ==>
                ok
    {
      ProperKeys();
      hide Proper;
      ok := true;
      for k := 0 to |REGISTRATION_FILES|
        invariant ok
        invariant forall j :: 0 <= j < k ==>
                    Produced(plan.runnerRoot, j, host.nodes, stages[RunnerStorage].undo.staging)
      {
        ok := VerifyOwned(plan.runnerRoot + [REGISTRATION_FILES[k]]);
        if !ok {
          assert host.willing ==> !Produced(plan.runnerRoot, k, host.nodes, stages[RunnerStorage].undo.staging);
          return;
        }
      }
    }

    /** runnerregistration.Provision: the listener configures the runner, and whatever came of it is sealed; then its
        three files must be there. An attempt that fails has the listener remove the runner again, if it ran. */
    method Register(plan: Plan) returns (ok: bool)
      requires Reached(5) && tail == [] && RunnerStorage in held && RunnerStorage in stages && !host.broken
      requires stages[RunnerStorage].phase == Making && stages[RunnerStorage].undo == Created(RunnerStaging(plan))
      requires !Roomy(plan) ==> excused
      modifies this`held, this`stages, this`tail, host, held[RunnerStorage]
      ensures if ok then Reached(6) && tail == [] && !host.broken else Reached(5) && tail == [ClosedLease(Registration)]
      ensures fresh(held.Values - old(held.Values))
      ensures ok ==>
                && host.objects == Applied(old(host.objects), plan.targets(Registration))
                && host.nodes == Listening(host.listener, false, plan.runnerRoot, old(host.nodes))
      ensures ok ==>
                && RunnerStorage in held && RunnerStorage in stages && stages[RunnerStorage].undo.Created?
                && forall k :: 0 <= k < |REGISTRATION_FILES| ==>
                     Produced(plan.runnerRoot, k, host.nodes, stages[RunnerStorage].undo.staging)
      ensures host.willing && Registrable(plan) ==>
                && ok && RunnerStorage in stages && stages[RunnerStorage].undo.Created?
                && plan.runnerRoot + SERVICE_EXECUTABLE in stages[RunnerStorage].undo.staging.files
                && IsFile(host.nodes, plan.runnerRoot + SERVICE_EXECUTABLE)
    {
      TheOrder();
      hide Reached, Listening, Roomy, Registrable, RunnerStaging, Applied, Produced, AcquisitionOrder, First, Proper,
           Registered;
      var started;
      ok, started := Configure(plan);
      if ok {
        ReachedIsProper(5);
        if host.willing && Registrable(plan) {
          RegisteredIsListed(plan.runnerRoot, host.nodes, stages[RunnerStorage].undo.staging);
        }
        ok := VerifyRegistration(plan);
      }
      var alive := host.Check();
      ok := ok && alive;
      if ok {
        ok := Acquire(Registration, plan.targets(Registration), 5);
        if ok { return; }
      } else {
        GiveUp(Registration, 5);
      }
      if started {
        var _ := TendReached(true, true);
      }
    }

    /** A stage that never came to hold anything closes its lease. */
    method GiveUp(kind: Kind, ghost n: nat)
      requires Reached(n) && tail == []
      modifies this`tail, host`log
      ensures Reached(n) && tail == [ClosedLease(kind)]
    {
      hide Ready, Host.Orderly, AllIntact, HeldBack, HoldsFirst, Acquisitions, First, Closed;
      host.log := host.log + [ClosedLease(kind)];
      tail := [ClosedLease(kind)];
      assert host.log == earlier + Acquisitions(First(n)) + tail;
    }

    /** The storage's stage is intact, being the last one. */
    lemma StorageOwned()
      requires Reached(5) && RunnerStorage in stages && !host.broken
      ensures Intact(host.Now(), stages[RunnerStorage])
    {
      hide First, HeldBack, AllIntact, Intact, Back, Acquisitions, Closed, Ready, Proper;
      StorageIsFifth(held.Keys);
      assert stages.Keys == held.Keys by { ProperKeys(); }
      StageTop(stages, 4, host.Now());
    }

    lemma OnlyBelow(n: nat)
      requires Reached(n)
      ensures StaysBelow(host.listener)
    {
      hide StaysBelow, Tidy, Registers, Ready, LeadsBack, First;
    }

    lemma ReachedIsProper(n: nat)
      requires Reached(n)
      ensures Proper()
    {
    }

    lemma ProperKeys()
      requires Proper()
      ensures stages.Keys == held.Keys
    {
    }

    /** The runner's tree. */
    method StorageSteps(plan: Plan) returns (ok: bool, ghost n: nat)
      requires Reached(4) && tail == [] && plan.runnerRoot != [] && !host.broken
      modifies this`held, this`stages, this`tail, host
      ensures 4 <= n <= 5 && Reached(n) && fresh(held.Values - old(held.Values)) && Stopped(ok, n, tail)
      ensures ok ==>
                && n == 5 && tail == [] && !host.broken && RunnerStorage in held && fresh(held[RunnerStorage])
                && RunnerStorage in stages && stages[RunnerStorage].phase == Making
                && stages[RunnerStorage].undo == Created(RunnerStaging(plan))
      ensures ok ==>
                host.Now() == Machine(old(host.objects),
                                      AllPlaced(AllPlaced(old(host.nodes), RunnerItems(plan)), RunnerFiles(plan)))
      ensures host.willing && TreeFits(plan.runnerRoot, old(host.nodes), RunnerItems(plan), RunnerFiles(plan)) ==> ok
    {
      TheOrder();
      hide Reached, AllMayBePlaced, AllPlaced, AllNoted, RunnerItems, RunnerFiles, AcquisitionOrder, First;
      n := 4;
      RunnerRootFirst(plan);
      ok := AcquireTree(RunnerStorage, plan.runnerRoot, RunnerItems(plan), 4);
      if !ok { return; }
      n := 5;
      ok := MakeAll(RunnerStorage, RunnerFiles(plan), 5);
    }

    /** The runner's registration and its service. */
    method RegistrationSteps(plan: Plan) returns (ok: bool, ghost n: nat)
      requires Reached(5) && tail == [] && RunnerStorage in held && RunnerStorage in stages && !host.broken
      requires stages[RunnerStorage].phase == Making && stages[RunnerStorage].undo == Created(RunnerStaging(plan))
      requires !Roomy(plan) ==> excused
      modifies this`held, this`stages, this`tail, host, held[RunnerStorage]
      ensures 5 <= n <= 7 && Reached(n) && fresh(held.Values - old(held.Values))
      ensures Stopped(ok, n, tail) && (ok ==> n == 7 && tail == [])
      ensures ok ==>
                host.Now() == Machine(Applied(Applied(old(host.objects), plan.targets(Registration)),
                                              plan.targets(RunnerService)),
                                      Listening(host.listener, false, plan.runnerRoot, old(host.nodes)))
      ensures ok ==> Registered(host.nodes, plan.runnerRoot) && IsFile(host.nodes, plan.runnerRoot + SERVICE_EXECUTABLE)
      ensures host.willing && Registrable(plan) ==> ok
    {
      TheOrder();
      hide Reached, Listening, Roomy, Registrable, RunnerStaging, Applied, Produced, AcquisitionOrder, First, Proper,
           Registered;
      n := 5;
      ok := Register(plan);
      if !ok { return; }
      ProducedIsRegistered(plan.runnerRoot, host.nodes, stages[RunnerStorage].undo.staging);
      n := 6;
      ReachedIsProper(6);
      ok := VerifyOwned(plan.runnerRoot + SERVICE_EXECUTABLE);
      if !ok { return; }
      ok := Acquire(RunnerService, plan.targets(RunnerService), 6);
      if !ok { return; }
      n := 7;
      ok := host.Check();
    }

    /** The runner's tree, its registration and its service. */
    method RunnerSteps(plan: Plan) returns (ok: bool, ghost n: nat)
      requires Reached(4) && tail == [] && plan.runnerRoot != [] && !host.broken && (!Roomy(plan) ==> excused)
      modifies this`held, this`stages, this`tail, host
      ensures 4 <= n <= 7 && Reached(n) && fresh(held.Values - old(held.Values))
      ensures Stopped(ok, n, tail) && (ok ==> n == 7 && tail == [])
      ensures ok ==> host.Now() == RunnerInstalled(plan, host.listener, old(host.Now()))
      ensures ok ==> Registered(host.nodes, plan.runnerRoot) && IsFile(host.nodes, plan.runnerRoot + SERVICE_EXECUTABLE)
      ensures host.willing && RunnerFits(plan, old(host.nodes)) ==> ok
    {
      hide Reached, TreeFits, AllPlaced, Applied, RunnerItems, RunnerFiles, RunnerStaging, Registrable, Roomy,
           Listening, Stopped, Registered;
      ok, n := StorageSteps(plan);
      if ok { ok, n := RegistrationSteps(plan); }
    }

    method CloseReady(kind: Kind) returns (ok: bool)
      requires Proper() && kind in held && (!host.broken ==> Intact(host.Now(), stages[kind]))
      requires kind == RunnerStorage ==> Registration !in held
      modifies this`held, this`stages, host, held[kind]
      ensures held == old(held) - {kind} && stages == old(stages) - {kind} && Proper() && old(held)[kind].Ended()
      ensures host.log == old(host.log) + [ClosedLease(kind)]
      ensures Breaks(old(host.broken), ok, host.broken, excused, Jam({kind}, host.stuck))
      ensures !host.broken ==> host.Now() == Back(old(host.Now()), old(stages)[kind])
    {
      hide Intact, Back, Ready, Host.Orderly, Jam;
      ReadyMeans(kind);
      AllKinds();
      JamOne(kind, host.stuck);
      ok := held[kind].Close();
      held, stages := held - {kind}, stages - {kind};
    }

    method CloseHeld(kind: Kind, ghost all: map<Kind, StageLease>) returns (ok: bool)
      requires Proper() && kind in held && (!host.broken ==> Intact(host.Now(), stages[kind]))
      requires kind == RunnerStorage ==> Registration !in held
      requires SubMap(held, all) && AllEnded(all, held.Keys)
      modifies this`held, this`stages, host, held[kind]
      ensures held == old(held) - {kind} && stages == old(stages) - {kind} && Proper()
      ensures SubMap(held, all) && AllEnded(all, held.Keys)
      ensures host.log == old(host.log) + [ClosedLease(kind)]
      ensures Breaks(old(host.broken), ok, host.broken, excused, Jam({kind}, host.stuck))
      ensures !host.broken ==> host.Now() == Back(old(host.Now()), old(stages)[kind])
    {
      hide Intact, Back, Proper, Breaks, Jam;
      ok := CloseReady(kind);
    }

    /** One nil check of rollbackLocked. */
    method CloseOne(kind: Kind, ghost front: seq<Kind>, ghost all: map<Kind, StageLease>, ghost whole: seq<Event>,
                    ghost target: Machine) returns (ok: bool)
      requires kind !in front && Proper() && SubMap(held, all) && AllEnded(all, held.Keys)
      requires kind == RunnerStorage ==> Registration !in held
      requires forall other :: other in held ==> other in front + [kind]
      requires Unwinding(stages, front + [kind], host.log, whole)
      requires !host.broken ==> Leads(stages, front + [kind], host.Now(), target)
      modifies this`held, this`stages, host, if kind in held then {held[kind]} else {}
      ensures held == old(held) - {kind} && stages == old(stages) - {kind}
      ensures Proper() && SubMap(held, all) && AllEnded(all, held.Keys)
      ensures forall other :: other in held ==> other in front
      ensures Unwinding(stages, front, host.log, whole) && (!host.broken ==> Leads(stages, front, host.Now(), target))
      ensures Breaks(old(host.broken), ok, host.broken, excused, Jam(old(held).Keys * {kind}, host.stuck))
    {
      assert stages.Keys == held.Keys by { ProperKeys(); }
      hide Unwinding, Leads, AllIntact, Intact, Back, SubMap, AllEnded, Proper;
      ok := true;
      ghost var before, log, now := stages, host.log, host.Now();
      StageUnwinds(before, front, kind, log, now, whole, target);
      if kind in held {
        assert held.Keys * {kind} == {kind};
        ok := CloseHeld(kind, all);
      }
    }

    /** All but the stages of the front have been dealt with. */
    ghost predicate Partway(front: seq<Kind>, all: map<Kind, StageLease>, whole: seq<Event>, target: Machine,
                            broken: bool, ok: bool)
      reads this, host, held.Values, all.Values
    {
      && Proper() && (forall kind :: kind in held ==> kind in front)
      && SubMap(held, all) && AllEnded(all, held.Keys)
      && Breaks(broken, ok, host.broken, excused, Jam(all.Keys - held.Keys, host.stuck))
      && Unwinding(stages, front, host.log, whole)
      && (!host.broken ==> Leads(stages, front, host.Now(), target))
    }

    method CloseKind(kind: Kind, ghost front: seq<Kind>, ghost all: map<Kind, StageLease>, ghost whole: seq<Event>,
                     ghost target: Machine, ghost broken: bool, ghost before: bool) returns (ok: bool)
      requires kind !in front && (kind == RunnerStorage ==> Registration !in held)
      requires Partway(front + [kind], all, whole, target, broken, before)
      modifies this`held, this`stages, host, held.Values
      ensures SubMap(held, all) && held == old(held) - {kind} && stages == old(stages) - {kind}
      ensures Partway(front, all, whole, target, broken, before && ok)
    {
      hide Unwinding, Leads, AllEnded, Proper, Breaks, SubMap, Jam;
      ghost var broke, keys := host.broken, held.Keys;
      KeysWithin(held, all);
      ok := CloseOne(kind, front, all, whole, target);
      BreaksTwice(broken, before, broke, ok, host.broken, excused, Jam(all.Keys - keys, host.stuck),
                  Jam(keys * {kind}, host.stuck));
      JamsTogether(all.Keys, keys, kind, host.stuck);
      assert held.Keys == keys - {kind};
    }

    /** Registration's own closing: after its lease, the listener is run once more, below the root that is still there,
        and what it leaves is sealed. */
    method Unregister(ghost all: map<Kind, StageLease>, ghost whole: seq<Event>, ghost target: Machine,
                      ghost broken: bool, ghost before: bool) returns (ok: bool)
      requires Partway(First(5), all, whole, target, broken, before) && Registration !in held
      requires RunnerStorage in held && RunnerStorage in stages && stages[RunnerStorage].phase == Sealed
      modifies this`stages, host`nodes, host`broken, held[RunnerStorage]
      ensures Partway(First(5), all, whole, target, broken, before && ok)
    {
      hide Unwinding, Leads, AllIntact, Intact, Back, SubMap, Proper, First, Listening, Catalogued, HasRoom, NamesFree,
           Registered, Breaks, Jam, AcquisitionOrder, HeldBack, HeldKinds, Extends;
      ProperKeys();
      ReadyMeans(RunnerStorage);
      ghost var view, now, broke := stages, host.Now(), host.broken;
      if !host.broken { StorageLeads(view, now, target); }
      ok := TendStorage(true, true);
      ReadyMeans(RunnerStorage);
      StorageUnwinds(view, stages, host.log, whole);
      if !host.broken { StorageStillLeads(view, stages, now, host.Now(), target); }
      BreaksTwice(broken, before, broke, ok, host.broken, excused, Jam(all.Keys - held.Keys, host.stuck), false);
    }

    method CloseNext(i: nat, ghost all: map<Kind, StageLease>, ghost whole: seq<Event>, ghost target: Machine,
                     ghost broken: bool, ghost before: bool) returns (ok: bool)
      requires i < 7 && Partway(First(7 - i), all, whole, target, broken, before)
      modifies this`held, this`stages, host, held.Values
      ensures SubMap(held, all) && held.Values <= old(held.Values)
      ensures Partway(First(6 - i), all, whole, target, broken, before && ok)
    {
      hide First, SubMap, AcquisitionOrder, Proper, Unwinding, Leads, AllEnded, Breaks, Jam;
      if Registration in held { RegisteredIsSealed(); }
      OnlyFirst(i, held.Keys);
      NextToClose(i);
      hide Partway;
      var registered := ROLLBACK_ORDER[i] == Registration && Registration in held;
      ok := CloseKind(ROLLBACK_ORDER[i], First(6 - i), all, whole, target, broken, before);
      if registered {
        var removed := Unregister(all, whole, target, broken, before && ok);
        ok := ok && removed;
      }
    }

    lemma RegisteredIsSealed()
      requires Proper() && Registration in held
      ensures RunnerStorage in held && RunnerStorage in stages && stages[RunnerStorage].phase == Sealed
    {
    }

    /** rollbackLocked: whatever is held is closed once, the last acquired first. */
    method Rollback() returns (failed: bool)
      requires Proper() && (!host.broken ==> AllIntact(stages, First(7), host.Now()))
      modifies this`held, this`stages, host, held.Values
      ensures held == map[]
      ensures host.log == old(host.log) + Closings(old(HeldKinds(stages, First(7))))
      ensures AllEnded(old(held), {})
      ensures Breaks(old(host.broken), !failed, host.broken, excused, Jam(old(held).Keys, host.stuck))
      ensures !host.broken ==> host.Now() == old(HeldBack(stages, First(7), host.Now()))
    {
      ghost var whole := host.log + Closings(HeldKinds(stages, First(7)));
      ghost var target := HeldBack(stages, First(7), host.Now());
      StartPartway(whole, target);
      hide HeldKinds, HeldBack, AllIntact, Closings, First, Proper, Partway, Breaks, AllEnded, Jam, AcquisitionOrder;
      failed := false;
      for i := 0 to |ROLLBACK_ORDER|
        invariant SubMap(held, old(held)) && Partway(First(7 - i), old(held), whole, target, old(host.broken), !failed)
        invariant held.Values <= old(held.Values)
      {
        var ok := CloseNext(i, old(held), whole, target, old(host.broken), !failed);
        failed := failed || !ok;
      }
      RolledBackAll(old(held), whole, target, old(host.broken), !failed);
    }

    lemma StartPartway(whole: seq<Event>, target: Machine)
      requires Proper() && (!host.broken ==> AllIntact(stages, First(7), host.Now()))
      requires whole == host.log + Closings(HeldKinds(stages, First(7)))
      requires target == HeldBack(stages, First(7), host.Now())
      ensures SubMap(held, held) && Partway(First(7), held, whole, target, host.broken, true)
    {
      AllFirst();
      StartUnwinding(stages, host.log, host.Now());
      assert held.Keys - held.Keys == {};
      assert AllEnded(held, held.Keys) by {
        hide HeldKinds, HeldBack, AllIntact, Closings, First, Host.Orderly;
        AllKinds();
      }
      hide Unwinding, Leads, HeldKinds, HeldBack, AllIntact, Closings, First, Proper, AllEnded;
    }

    lemma AllKinds()
      requires Proper()
      ensures forall kind :: kind in held ==> held[kind].kind == kind
    {
      hide Host.Orderly;
      forall kind | kind in held ensures held[kind].kind == kind {
        ReadyMeans(kind);
      }
    }

    lemma RolledBackAll(all: map<Kind, StageLease>, whole: seq<Event>, target: Machine, broken: bool, ok: bool)
      requires Partway(First(0), all, whole, target, broken, ok)
      ensures held == map[] && host.log == whole && AllEnded(all, {})
      ensures Breaks(broken, ok, host.broken, excused, Jam(all.Keys, host.stuck))
      ensures !host.broken ==> host.Now() == target
    {
      hide AllEnded, Unwinding, Leads;
      NothingToClose(stages, host.log, host.Now(), whole, target);
      assert held.Keys == {};
      assert all.Keys - {} == all.Keys;
    }

    /** Close: the rollback, at most once. */
    method Close() returns (ok: bool)
      requires closed || (Proper() && (!host.broken ==> AllIntact(stages, First(7), host.Now())))
      modifies this, host, held.Values
      ensures closed
      ensures old(closed) ==> ok && held == old(held) && host.log == old(host.log) && host.Now() == old(host.Now())
      ensures !old(closed) ==>
                && held == map[] && host.log == old(host.log) + Closings(old(HeldKinds(stages, First(7))))
                && AllEnded(old(held), {})
                && Breaks(old(host.broken), ok, host.broken, excused, Jam(old(held).Keys, host.stuck))
                && (!host.broken ==> host.Now() == old(HeldBack(stages, First(7), host.Now())))
    {
      hide First, HeldKinds, HeldBack, AllIntact, Closings;
      if closed { return true; }
      closed := true;
      var failed := Rollback();
      ok := !failed;
    }

    /** The five commits that nothing rolls back any more: each is tried, and none of an open lease fails. */
    method Finalize() returns (ok: bool)
      requires Proper() && forall kind :: kind in FINAL_COMMITS ==> kind in held
      modifies host`log, held.Values
      ensures ok && host.log == old(host.log) + Commits(FINAL_COMMITS)
      ensures forall kind :: kind in FINAL_COMMITS ==> held[kind].committed
      ensures forall kind :: kind in held && kind !in FINAL_COMMITS ==> unchanged(held[kind])
    {
      ok := true;
      for i := 0 to |FINAL_COMMITS|
        invariant ok && host.log == old(host.log) + Commits(FINAL_COMMITS[..i])
        invariant forall j :: 0 <= j < i ==> held[FINAL_COMMITS[j]].committed
        invariant forall j :: i <= j < |FINAL_COMMITS| ==> held[FINAL_COMMITS[j]].Open()
        invariant forall kind :: kind in held && kind !in FINAL_COMMITS ==> unchanged(held[kind])
      {
        FinalCommit(i);
        var kind := FINAL_COMMITS[i];
        var stepOk := held[kind].Commit();
        ok := ok && stepOk;
      }
      assert FINAL_COMMITS[..5] == FINAL_COMMITS;
    }

    /** A stage is committed and let go. */
    method CommitHeld(kind: Kind) returns (ok: bool)
      requires Proper() && kind in held && IsService(kind)
      modifies this`held, this`stages, held[kind], host`log
      ensures ok <==> !(IsService(kind) && kind in host.stuck)
      ensures Proper() && host.log == if ok then old(host.log) + [CommittedLease(kind)] else old(host.log)
      ensures if ok then
                && held == old(held) - {kind} && stages == old(stages) - {kind}
                && old(held)[kind].committed && old(held)[kind] !in held.Values && old(held)[kind].kind == kind
              else held == old(held) && stages == old(stages)
    {
      hide Ready, Host.Orderly;
      ReadyMeans(kind);
      AllKinds();
      ok := held[kind].Commit();
      if ok { held, stages := held - {kind}, stages - {kind}; } else { StillReady(kind, held[kind], stages[kind]); }
    }

    /** Commit: services first; once the broker's own service is in, the rest can only be finalized, and is. Which of
        the ways it ends depends only on the two services' handles. */
    method Commit() returns (ok: bool, ghost outcome: CommitOutcome)
      requires closed || (Reached(7) && tail == [])
      modifies this, host, held.Values
      ensures ok <==> outcome == FullyCommitted
      ensures outcome == if old(closed) then NothingToCommit
                         else if RunnerService in host.stuck then RolledBack
                         else if Service in host.stuck then RunnerServiceLeft
                         else FullyCommitted
      ensures outcome == NothingToCommit ==>
                host.log == old(host.log) && host.Now() == old(host.Now()) && held == old(held)
      ensures outcome != NothingToCommit ==> closed && held == map[]
      ensures outcome == RolledBack ==>
                && host.log == old(host.log) + Closings(AcquisitionOrder()) && AllEnded(old(held), {})
                && (host.broken ==> excused) && (!host.broken ==> host.Now() == start)
      ensures outcome == RunnerServiceLeft ==>
                && host.log == old(host.log) + [CommittedLease(RunnerService)] + Closings(First(6))
                && AllEnded(old(held), {RunnerService}) && RunnerService in old(held)
                && old(held)[RunnerService].committed
                && (host.broken ==> excused)
                && (!host.broken ==>
                      RunnerService in old(stages)
                      && OnlyRunnerService(start, old(host.Now()), host.Now(), HeldChanges(old(stages), First(6)),
                                           old(stages)[RunnerService]))
      ensures outcome == FullyCommitted ==>
                && host.log ==
                     old(host.log) + [CommittedLease(RunnerService), CommittedLease(Service)] + Commits(FINAL_COMMITS)
                && AllCommitted(old(held)) && host.Now() == old(host.Now()) && host.broken == old(host.broken)
    {
      hide First, HeldKinds, HeldBack, HeldChanges, AllIntact, Closings, Commits, AcquisitionOrder, Intact, Back,
           HoldsFirst,
           OnlyRunnerService;
      if closed { return false, NothingToCommit; }
      assert stages.Keys == held.Keys && Proper();
      hide Proper;
      EverythingHeld(held.Keys);
      AllFirst();
      HeldFirst(stages, 7, 7, host.Now());
      ok, outcome := CommitServices();
    }

    method CommitServices() returns (ok: bool, ghost outcome: CommitOutcome)
      requires Proper() && HoldsFirst(held.Keys, 7) && RunnerService in held
      requires HeldKinds(stages, First(7)) == AcquisitionOrder()
      requires (host.broken ==> excused) && (!host.broken ==> Leads(stages, First(7), host.Now(), start))
      modifies this, host, held.Values
      ensures closed && held == map[] && (ok <==> outcome == FullyCommitted)
      ensures outcome == if RunnerService in host.stuck then RolledBack
                         else if Service in host.stuck then RunnerServiceLeft
                         else FullyCommitted
      ensures outcome == RolledBack ==>
                && host.log == old(host.log) + Closings(AcquisitionOrder()) && AllEnded(old(held), {})
                && (host.broken ==> excused) && (!host.broken ==> host.Now() == start)
      ensures outcome == RunnerServiceLeft ==>
                && host.log == old(host.log) + [CommittedLease(RunnerService)] + Closings(First(6))
                && AllEnded(old(held), {RunnerService}) && old(held)[RunnerService].committed
                && (host.broken ==> excused)
                && (!host.broken ==>
                      RunnerService in old(stages)
                      && OnlyRunnerService(start, old(host.Now()), host.Now(), HeldChanges(old(stages), First(6)),
                                           old(stages)[RunnerService]))
      ensures outcome == FullyCommitted ==>
                && host.log ==
                     old(host.log) + [CommittedLease(RunnerService), CommittedLease(Service)] + Commits(FINAL_COMMITS)
                && AllCommitted(old(held)) && host.Now() == old(host.Now()) && host.broken == old(host.broken)
    {
      hide First, HeldKinds, HeldBack, HeldChanges, AllIntact, Closings, Commits, AcquisitionOrder, HoldsFirst,
           OnlyRunnerService,
           AllEnded, AllCommitted, Back, Intact;
      assert stages.Keys == held.Keys && stages[RunnerService].undo.Changes? && Proper();
      hide Proper;
      ghost var before, now := stages, host.Now();
      var serviceIn := CommitHeld(RunnerService);
      if !serviceIn {
        var _ := Rollback();
        closed := true;
        return false, RolledBack;
      }
      ok, outcome := CommitRest(old(held), before);
    }

    /** The runner service is committed and out of the lease. */
    method CommitRest(ghost all: map<Kind, StageLease>, ghost before: Stages)
      returns (ok: bool, ghost outcome: CommitOutcome)
      requires Proper() && RunnerService in all && held == all - {RunnerService}
      requires all[RunnerService].committed && all[RunnerService] !in held.Values
      requires all[RunnerService].kind == RunnerService
      requires HoldsFirst(before.Keys, 7) && stages == before - {RunnerService}
      requires RunnerService in before && before[RunnerService].undo.Changes?
      requires (host.broken ==> excused) && (!host.broken ==> Leads(before, First(7), host.Now(), start))
      modifies this, host, held.Values
      ensures closed && held == map[] && (ok <==> outcome == FullyCommitted)
      ensures outcome == if Service in host.stuck then RunnerServiceLeft else FullyCommitted
      ensures outcome == RunnerServiceLeft ==>
                && host.log == old(host.log) + Closings(First(6)) && AllEnded(all, {RunnerService})
                && all[RunnerService].committed && (host.broken ==> excused)
                && (!host.broken ==>
                      OnlyRunnerService(start, old(host.Now()), host.Now(), HeldChanges(before, First(6)),
                                        before[RunnerService]))
      ensures outcome == FullyCommitted ==>
                && host.log == old(host.log) + [CommittedLease(Service)] + Commits(FINAL_COMMITS)
                && AllCommitted(all) && host.Now() == old(host.Now()) && host.broken == old(host.broken)
    {
      hide First, HeldKinds, HeldBack, HeldChanges, AllIntact, Closings, Commits, AcquisitionOrder, HoldsFirst,
           OnlyRunnerService;
      assert stages.Keys == held.Keys;
      hide Proper;
      if !host.broken { WithoutRunnerService(before, stages, host.Now(), start); }
      KindsWithout(before, stages);
      ghost var others := held;
      ok, outcome := CommitBroker();
      forall kind | kind in all
        ensures outcome == RunnerServiceLeft && kind != RunnerService ==> all[kind].kind == kind && all[kind].Ended()
        ensures outcome == FullyCommitted ==> all[kind].committed
      {
        if kind != RunnerService { assert kind in others && others[kind] == all[kind]; }
      }
    }

    /** The rest of Commit, with the runner service committed and out of the lease. */
    method CommitBroker() returns (ok: bool, ghost outcome: CommitOutcome)
      requires Proper() && HoldsFirst(held.Keys, 6) && (!host.broken ==> AllIntact(stages, First(7), host.Now()))
      requires HeldKinds(stages, First(7)) == First(6)
      modifies this, host, held.Values
      ensures closed && held == map[] && (ok <==> outcome == FullyCommitted)
      ensures outcome == if Service in host.stuck then RunnerServiceLeft else FullyCommitted
      ensures outcome == RunnerServiceLeft ==>
                && host.log == old(host.log) + Closings(First(6)) && AllEnded(old(held), {})
                && (old(host.broken) ==> host.broken) && (host.broken ==> old(host.broken) || excused)
                && (!host.broken ==> host.Now() == old(HeldBack(stages, First(7), host.Now())))
      ensures outcome == FullyCommitted ==>
                && host.log == old(host.log) + [CommittedLease(Service)] + Commits(FINAL_COMMITS)
                && AllCommitted(old(held)) && host.Now() == old(host.Now()) && host.broken == old(host.broken)
    {
      hide First, HeldKinds, HeldBack, AllIntact, Closings, Commits, AcquisitionOrder, HoldsFirst, Proper;
      AllButRunnerService(held.Keys);
      var brokerIn := CommitHeld(Service);
      if !brokerIn {
        var _ := Rollback();
        closed := true;
        return false, RunnerServiceLeft;
      }
      FinalKinds();
      var finalized := Finalize();
      forall kind | kind in old(held) ensures old(held)[kind].committed {
        if kind != Service { assert !IsService(kind); }
      }
      held, stages, closed := map[], map[], true;
      ok, outcome := finalized, FullyCommitted;
    }
  }

  ghost predicate AllCommitted(leases: map<Kind, StageLease>)
    reads leases.Values
  {
    forall kind :: kind in leases ==> leases[kind].committed
  }

  lemma FinalKinds()
    ensures forall kind :: kind in FINAL_COMMITS <==> !IsService(kind)
  {
    assert FINAL_COMMITS[0] == Registration && FINAL_COMMITS[1] == RunnerStorage && FINAL_COMMITS[2] == Accounts;
    assert FINAL_COMMITS[3] == Filesystem && FINAL_COMMITS[4] == Root;
  }

  lemma FinalCommit(i: nat)
    requires i < |FINAL_COMMITS|
    ensures !IsService(FINAL_COMMITS[i]) && FINAL_COMMITS[i] in FINAL_COMMITS
    ensures forall j :: 0 <= j < |FINAL_COMMITS| && j != i ==> FINAL_COMMITS[j] != FINAL_COMMITS[i]
    ensures Commits(FINAL_COMMITS[..i + 1]) == Commits(FINAL_COMMITS[..i]) + [CommittedLease(FINAL_COMMITS[i])]
  {
  }

  lemma EverythingHeld(kinds: set<Kind>)
    requires HoldsFirst(kinds, 7)
    ensures forall kind :: kind in kinds
  {
    AllFirst();
    FirstHeld(kinds, 7, 7);
  }

  lemma AllButRunnerService(kinds: set<Kind>)
    requires HoldsFirst(kinds, 6)
    ensures forall kind :: kind in kinds <==> kind != RunnerService
  {
    OrderDistinct(6);
    assert AcquisitionOrder()[6] == RunnerService;
    AllFirst();
    forall kind ensures kind in kinds <==> kind != RunnerService {
      assert kind in First(7);
      var i :| 0 <= i < 7 && First(7)[i] == kind;
      assert AcquisitionOrder()[i] in kinds <==> i < 6;
    }
  }

  lemma KindsWithout(before: Stages, after: Stages)
    requires HoldsFirst(before.Keys, 7) && after == before - {RunnerService}
    ensures HoldsFirst(after.Keys, 6) && HeldKinds(after, First(7)) == First(6)
    ensures AcquisitionOrder()[6] == RunnerService
  {
    OrderDistinct(6);
    assert AcquisitionOrder()[6] == RunnerService;
    hide First, HeldKinds;
    assert HoldsFirst(after.Keys, 6);
    HeldFirst(after, 6, 7, Machine(map[], map[]));
  }

  // ----- What stays behind when only the runner service was committed -----

  ghost predicate Agree(a: Objects, b: Objects, name: string)
  {
    (name in a <==> name in b) && (name in a ==> a[name] == b[name])
  }

  ghost predicate Touches(changes: seq<Change>, name: string)
  {
    exists i :: 0 <= i < |changes| && changes[i].name == name
  }

  lemma {:induction false} UndoAgrees(a: Objects, b: Objects, changes: seq<Change>, name: string)
    requires Agree(a, b, name)
    ensures Agree(UndoneAll(a, changes), UndoneAll(b, changes), name)
    ensures !Touches(changes, name) ==> Agree(UndoneAll(a, changes), a, name)
    decreases |changes|
  {
    if changes != [] {
      var last, front := changes[|changes| - 1], changes[..|changes| - 1];
      UndoAgrees(Undone(a, last), Undone(b, last), front, name);
      if !Touches(changes, name) {
        assert last.name != name;
        assert forall i :: 0 <= i < |front| ==> changes[i].name != name;
        UndoAgrees(Undone(a, last), a, front, name);
      }
    }
  }

  /** Everything the runner service had not changed is as before the installation, what it alone had changed is as
      installed, and no file or directory is left. */
  ghost predicate OnlyRunnerService(start: Machine, installed: Machine, after: Machine, others: seq<Change>,
                                    runnerService: Held)
  {
    && after.nodes == start.nodes && runnerService.undo.Changes?
    && forall name ::
         && (!Touches(runnerService.undo.changes, name) ==> Agree(after.objects, start.objects, name))
         && (!Touches(others, name) ==> Agree(after.objects, installed.objects, name))
  }

  lemma OnlyRunnerServiceStays(installed: Objects, others: seq<Change>, runnerService: seq<Change>, name: string)
    ensures !Touches(runnerService, name) ==>
              Agree(UndoneAll(installed, others), UndoneAll(UndoneAll(installed, runnerService), others), name)
    ensures !Touches(others, name) ==> Agree(UndoneAll(installed, others), installed, name)
  {
    UndoAgrees(installed, installed, runnerService, name);
    if !Touches(runnerService, name) {
      UndoAgrees(UndoneAll(installed, runnerService), installed, others, name);
    }
    UndoAgrees(installed, installed, others, name);
  }

  /** Leaving the runner service out of what is taken back. */
  lemma WithoutRunnerService(before: Stages, after: Stages, now: Machine, start: Machine)
    requires HoldsFirst(before.Keys, 7) && after == before - {RunnerService}
    requires RunnerService in before && before[RunnerService].undo.Changes?
    requires AllIntact(before, First(7), now) && HeldBack(before, First(7), now) == start
    ensures AllIntact(after, First(7), now)
    ensures OnlyRunnerService(start, now, HeldBack(after, First(7), now), HeldChanges(before, First(6)),
                              before[RunnerService])
  {
    KindsWithout(before, after);
    EverythingHeld(before.Keys);
    FirstHeld(after.Keys, 6, 6);
    hide AcquisitionOrder, First, HeldKinds, HeldBack, HeldChanges, AllIntact, HoldsFirst, Intact;
    var runnerService := before[RunnerService];
    var without := Back(now, runnerService);
    StageTop(before, 6, now);
    HeldNodes(before, First(6), without, now);
    HeldWithout(before, after, First(6), now);
    HeldFirst(after, 6, 7, now);
    HeldObjects(before, First(6), without);
    HeldObjects(after, First(6), now);
    forall name
      ensures !Touches(runnerService.undo.changes, name) ==>
                Agree(HeldBack(after, First(7), now).objects, start.objects, name)
      ensures !Touches(HeldChanges(before, First(6)), name) ==>
                Agree(HeldBack(after, First(7), now).objects, now.objects, name)
    {
      OnlyRunnerServiceStays(now.objects, HeldChanges(before, First(6)), runnerService.undo.changes, name);
    }
  }

  // ----- What the listener finds and leaves -----

  lemma StorageIsFifth(kinds: set<Kind>)
    ensures AcquisitionOrder()[4] == RunnerStorage && AcquisitionOrder()[5] == Registration
    ensures HoldsFirst(kinds, 5) ==> RunnerStorage in kinds && Registration !in kinds
  {
  }

  /** If the host is not faulty, what the listener leaves can be sealed. */
  lemma WhatItLeaves(host: Host, storage: Held, removing: bool)
    requires host.Orderly() && storage.undo.Created? && Intact(host.Now(), storage) && !storage.phase.Left?
    requires storage.undo.staging.root in storage.undo.staging.directories && (removing ==> storage.phase == Sealed)
    ensures var root := storage.undo.staging.root;
            var later := Listening(host.listener, removing, root, host.nodes);
            && (!host.faulty && (removing || HasRoom(host.nodes, root)) ==> CanSeal(later, root))
            && (host.willing && !removing && HasRoom(host.nodes, root) && NamesFree(host.nodes, root) ==>
                  CanSeal(later, root) && Registered(later, root))
  {
    hide CanSeal, HasRoom, NamesFree, Registered, Listening, StaysBelow, Owns, ListsAll, Outside;
    OwnedRoot(host.nodes, storage.undo.staging, storage.base, storage.phase);
  }

  lemma {:induction false} NotedRoot(root: Path, items: seq<Item>)
    requires items != [] && items[0] == DirectoryItem(root)
    ensures var s := AllNoted(Staging(root, [], []), items); s.root == root && root in s.directories
    decreases |items|
  {
    var front := items[..|items| - 1];
    if front == [] {
      assert AllNoted(Staging(root, [], []), front) == Staging(root, [], []);
      assert WithDirectory(Staging(root, [], []), root).directories[0] == root;
    } else {
      NotedRoot(root, front);
    }
  }

  lemma RootStaysListed(before: Undo, after: Undo, nodes: Tree, later: Tree, item: Item, ok: bool)
    requires Placing(before, after, nodes, later, item, ok) && before.Created?
    ensures after.Created? && after.staging.root == before.staging.root
    ensures before.staging.root in before.staging.directories ==> after.staging.root in after.staging.directories
  {
  }

  /** The lists hold exactly what was noted. */
  lemma {:induction false} NotedItems(s: Staging, items: seq<Item>)
    ensures var t := AllNoted(s, items);
            && t.root == s.root && |t.files| + |t.directories| == |s.files| + |s.directories| + |items|
            && (forall p :: p in t.files ==> p in s.files || exists k :: 0 <= k < |items| && items[k].path == p)
            && (forall p :: p in t.directories ==>
                  p in s.directories || exists k :: 0 <= k < |items| && items[k].path == p)
            && (forall k :: 0 <= k < |items| && items[k].FileItem? ==> items[k].path in t.files)
            && (forall p :: p in s.files ==> p in t.files)
    decreases |items|
  {
    if items != [] {
      var front, last := items[..|items| - 1], items[|items| - 1];
      NotedItems(s, front);
      var u, t := AllNoted(s, front), AllNoted(s, items);
      if last.FileItem? { assert t.files[|u.files|] == last.path; }
      forall k | 0 <= k < |items| && items[k].FileItem? ensures items[k].path in t.files {
        if k < |front| { assert front[k].path in u.files; }
      }
    }
  }

  lemma SetOfSeq(paths: seq<Path>) returns (all: set<Path>)
    ensures |all| <= |paths| && forall p :: p in paths ==> p in all
  {
    all := {};
    for i := 0 to |paths|
      invariant |all| <= i && forall p :: p in paths[..i] ==> p in all
    {
      all := all + {paths[i]};
    }
    assert paths[..|paths|] == paths;
  }

  /** Before the listener comes, there is what was placed. */
  lemma ReadyToRegister(plan: Plan, m: Machine, storage: Held)
    requires storage.undo == Created(RunnerStaging(plan)) && storage.phase == Making
    requires plan.runnerRoot in RunnerStaging(plan).directories && RunnerStaging(plan).root == plan.runnerRoot
    requires Intact(m, storage)
    ensures plan.runnerRoot in m.nodes && m.nodes[plan.runnerRoot].Directory? && Closed(m.nodes)
    ensures Roomy(plan) ==> HasRoom(m.nodes, plan.runnerRoot)
    ensures Registrable(plan) ==>
              && HasRoom(m.nodes, plan.runnerRoot) && NamesFree(m.nodes, plan.runnerRoot)
              && IsFile(m.nodes, plan.runnerRoot + SERVICE_EXECUTABLE)
  {
    hide Closed, Outside, ParentsFirst, Distinct, RunnerItems, RunnerFiles, AllNoted;
    var s, root, nodes := RunnerStaging(plan), plan.runnerRoot, m.nodes;
    OwnedRoot(nodes, s, storage.base, Making);
    var items := RunnerItems(plan) + RunnerFiles(plan);
    StagingItems(plan);
    var files := SetOfSeq(s.files);
    var directories := SetOfSeq(s.directories);
    assert forall p :: p in nodes && root <= p ==> p in s.files || p in s.directories;
    PartIsNoLarger(Below(nodes, root), files + directories);
    assert PlainBelow(nodes, root);
    if Registrable(plan) {
      forall p | p in s.files || p in s.directories
        ensures forall k :: 0 <= k < |REGISTRATION_FILES| ==> p != root + [REGISTRATION_FILES[k]]
      {
        var j :| 0 <= j < |items| && items[j].path == p;
      }
      var j :| 0 <= j < |items| && items[j].FileItem? && items[j].path == root + SERVICE_EXECUTABLE;
    }
  }

  /** The k-th of registration's files is there and on the list. */
  ghost predicate Produced(root: Path, k: nat, nodes: Tree, s: Staging)
    requires k < |REGISTRATION_FILES|
  {
    IsFile(nodes, root + [REGISTRATION_FILES[k]]) && root + [REGISTRATION_FILES[k]] in s.files
  }

  lemma ProducedIsRegistered(root: Path, nodes: Tree, s: Staging)
    requires forall k :: 0 <= k < |REGISTRATION_FILES| ==> Produced(root, k, nodes, s)
    ensures Registered(nodes, root)
  {
    forall k | 0 <= k < |REGISTRATION_FILES| ensures IsFile(nodes, root + [REGISTRATION_FILES[k]]) {
      assert Produced(root, k, nodes, s);
    }
  }

  lemma RegisteredIsListed(root: Path, nodes: Tree, s: Staging)
    requires Registered(nodes, root) && forall p :: root < p && IsFile(nodes, p) ==> p in s.files
    ensures forall k :: 0 <= k < |REGISTRATION_FILES| ==> Produced(root, k, nodes, s)
  {
    forall k | 0 <= k < |REGISTRATION_FILES| ensures Produced(root, k, nodes, s) {
      assert root < root + [REGISTRATION_FILES[k]];
    }
  }

  lemma StagingItems(plan: Plan)
    ensures var s, items := RunnerStaging(plan), RunnerItems(plan) + RunnerFiles(plan);
            && s.root == plan.runnerRoot && |s.files| + |s.directories| == |items|
            && (forall p :: p in s.files || p in s.directories ==> exists k :: 0 <= k < |items| && items[k].path == p)
            && (forall k :: 0 <= k < |items| && items[k].FileItem? ==> items[k].path in s.files)
  {
    hide RunnerItems, RunnerFiles, AllNoted;
    var a, b := RunnerItems(plan), RunnerFiles(plan);
    var first := AllNoted(Staging(plan.runnerRoot, [], []), a);
    NotedItems(Staging(plan.runnerRoot, [], []), a);
    NotedItems(first, b);
    var s, items := RunnerStaging(plan), a + b;
    forall p | p in s.files || p in s.directories ensures exists k :: 0 <= k < |items| && items[k].path == p {
      if k :| 0 <= k < |b| && b[k].path == p {
        assert items[|a| + k].path == p;
      } else {
        var k :| 0 <= k < |a| && a[k].path == p;
        assert items[k].path == p;
      }
    }
    forall k | 0 <= k < |items| && items[k].FileItem? ensures items[k].path in s.files {
      if k < |a| { assert a[k].path in first.files; } else { assert b[k - |a|].path in s.files; }
    }
  }

  lemma RootFirst(root: Path)
    ensures RootItems(root) != [] && RootItems(root)[0] == DirectoryItem(root)
  {
  }

  lemma RunnerRootFirst(plan: Plan)
    ensures RunnerItems(plan) != [] && RunnerItems(plan)[0] == DirectoryItem(plan.runnerRoot)
  {
  }

  lemma StagingRoot(plan: Plan)
    ensures RunnerStaging(plan).root == plan.runnerRoot && plan.runnerRoot in RunnerStaging(plan).directories
  {
    RunnerRootFirst(plan);
    NotedRoot(plan.runnerRoot, RunnerItems(plan));
    hide RunnerItems, RunnerFiles;
    DirectoriesStay(AllNoted(Staging(plan.runnerRoot, [], []), RunnerItems(plan)), RunnerFiles(plan), plan.runnerRoot);
  }

  lemma {:induction false} DirectoriesStay(s: Staging, items: seq<Item>, path: Path)
    ensures AllNoted(s, items).root == s.root
    ensures path in s.directories ==> path in AllNoted(s, items).directories
    decreases |items|
  {
    if items != [] { DirectoriesStay(s, items[..|items| - 1], path); }
  }

  /** After sealing, what is looked for is on the lists if it is there; and configuring has left the executable. */
  lemma FilesListed(plan: Plan, listener: Listener, before: Tree, nodes: Tree, s: Staging)
    requires StaysBelow(listener) && Closed(before) && nodes == Listening(listener, false, plan.runnerRoot, before)
    requires plan.runnerRoot in before && before[plan.runnerRoot].Directory?
    requires Catalogued(nodes, plan.runnerRoot, s)
    ensures forall p :: plan.runnerRoot < p && IsFile(nodes, p) ==> p in s.files
    ensures IsFile(before, plan.runnerRoot + SERVICE_EXECUTABLE) ==> IsFile(nodes, plan.runnerRoot + SERVICE_EXECUTABLE)
    ensures forall k :: 0 <= k < |REGISTRATION_FILES| ==> plan.runnerRoot < plan.runnerRoot + [REGISTRATION_FILES[k]]
    ensures plan.runnerRoot < plan.runnerRoot + SERVICE_EXECUTABLE
  {
    hide Closed, Confined;
  }

  /** What is left to be logged, and where what is left leads. */
  ghost predicate Unwinding(stages: Stages, order: seq<Kind>, log: seq<Event>, whole: seq<Event>)
  {
    log + Closings(HeldKinds(stages, order)) == whole
  }

  ghost predicate Leads(stages: Stages, order: seq<Kind>, m: Machine, target: Machine)
  {
    AllIntact(stages, order, m) && HeldBack(stages, order, m) == target
  }

  lemma BreaksTwice(a: bool, first: bool, b: bool, second: bool, c: bool, faulty: bool, jam: bool, more: bool)
    requires Breaks(a, first, b, faulty, jam) && Breaks(b, second, c, faulty, more)
    ensures Breaks(a, first && second, c, faulty, jam || more)
  {
  }

  lemma JamOne(kind: Kind, stuck: set<Kind>)
    ensures Jam({kind}, stuck) == (IsService(kind) && kind in stuck)
  {
  }

  lemma KeysWithin(held: map<Kind, StageLease>, all: map<Kind, StageLease>)
    requires SubMap(held, all)
    ensures held.Keys <= all.Keys
  {
  }

  lemma JamsTogether(all: set<Kind>, held: set<Kind>, kind: Kind, stuck: set<Kind>)
    requires held <= all
    ensures Jam(all - (held - {kind}), stuck) == (Jam(all - held, stuck) || Jam(held * {kind}, stuck))
  {
    forall k | k in all - (held - {kind}) ensures k in all - held || k in held * {kind} {
    }
  }

  lemma OnlyFirst(i: nat, kinds: set<Kind>)
    requires i < 7 && forall kind :: kind in kinds ==> kind in First(7 - i)
    ensures ROLLBACK_ORDER[i] == RunnerStorage ==> Registration !in kinds
    ensures ROLLBACK_ORDER[i] == Registration ==> i == 1
  {
    if ROLLBACK_ORDER[i] == RunnerStorage {
      assert i == 2;
      assert forall k :: 0 <= k < 5 ==> First(5)[k] != Registration;
    }
  }

  /** The storage's stage is what is taken back first of the first five. */
  lemma StorageLeads(view: Stages, m: Machine, target: Machine)
    requires RunnerStorage in view && Leads(view, First(5), m, target)
    ensures Intact(m, view[RunnerStorage]) && Leads(view, First(4), Back(m, view[RunnerStorage]), target)
  {
    OrderDistinct(4);
    assert AcquisitionOrder()[4] == RunnerStorage;
    hide AcquisitionOrder, First, HeldKinds, HeldBack, HeldChanges, AllIntact, Intact, Back;
    HeldStep(view, First(4), RunnerStorage, m);
  }

  lemma StorageStillLeads(before: Stages, after: Stages, m: Machine, later: Machine, target: Machine)
    requires RunnerStorage in before && RunnerStorage in after
    requires after == before[RunnerStorage := after[RunnerStorage]] && Leads(before, First(5), m, target)
    requires Intact(later, after[RunnerStorage])
    requires Back(later, after[RunnerStorage]) == Back(m, before[RunnerStorage])
    ensures Leads(after, First(5), later, target)
  {
    StorageLeads(before, m, target);
    OrderDistinct(4);
    assert AcquisitionOrder()[4] == RunnerStorage;
    hide AcquisitionOrder, First, HeldKinds, HeldBack, HeldChanges, AllIntact, Intact, Back;
    HeldWithout(before, after, First(4), Back(m, before[RunnerStorage]));
    HeldStep(after, First(4), RunnerStorage, later);
  }

  lemma {:induction false} SameHeldKinds(view: Stages, other: Stages, order: seq<Kind>)
    requires view.Keys == other.Keys
    ensures HeldKinds(view, order) == HeldKinds(other, order)
    decreases |order|
  {
    if order != [] { SameHeldKinds(view, other, order[..|order| - 1]); }
  }

  lemma StorageUnwinds(before: Stages, after: Stages, log: seq<Event>, whole: seq<Event>)
    requires RunnerStorage in before && RunnerStorage in after
    requires after == before[RunnerStorage := after[RunnerStorage]] && Unwinding(before, First(5), log, whole)
    ensures Unwinding(after, First(5), log, whole)
  {
    assert after.Keys == before.Keys;
    SameHeldKinds(before, after, First(5));
  }

  /** Taking one stage back, if it is held, leaves the rest of the way. */
  lemma StageUnwinds(before: Stages, front: seq<Kind>, kind: Kind, log: seq<Event>, m: Machine, whole: seq<Event>,
                     target: Machine)
    requires kind !in front
    ensures kind in before && Unwinding(before, front + [kind], log, whole) ==>
              Unwinding(before - {kind}, front, log + [ClosedLease(kind)], whole)
    ensures kind in before && Leads(before, front + [kind], m, target) ==>
              Intact(m, before[kind]) && Leads(before - {kind}, front, Back(m, before[kind]), target)
    ensures kind !in before && Unwinding(before, front + [kind], log, whole) ==> Unwinding(before, front, log, whole)
    ensures kind !in before && Leads(before, front + [kind], m, target) ==> Leads(before, front, m, target)
  {
    hide HeldKinds, HeldBack, AllIntact, Intact, Back, Closings;
    HeldStep(before, front, kind, m);
    if kind in before {
      HeldWithout(before, before - {kind}, front, Back(m, before[kind]));
      ClosingsSplit(HeldKinds(before, front), kind);
      assert log + ([ClosedLease(kind)] + Closings(HeldKinds(before, front)))
          == log + [ClosedLease(kind)] + Closings(HeldKinds(before, front));
    }
  }

  lemma StartUnwinding(stages: Stages, log: seq<Event>, m: Machine)
    ensures Unwinding(stages, First(7), log, log + Closings(HeldKinds(stages, First(7))))
    ensures AllIntact(stages, First(7), m) ==> Leads(stages, First(7), m, HeldBack(stages, First(7), m))
  {
  }

  lemma NothingToClose(stages: Stages, log: seq<Event>, m: Machine, whole: seq<Event>, target: Machine)
    requires forall kind :: kind in stages ==> kind in First(0)
    ensures stages == map[]
    ensures Unwinding(stages, First(0), log, whole) ==> log == whole
    ensures Leads(stages, First(0), m, target) ==> m == target
  {
    assert log + [] == log;
  }

  lemma Added(before: map<Kind, StageLease>, after: map<Kind, StageLease>, n: nat, kind: Kind)
    requires n < 7 && kind == AcquisitionOrder()[n] && HoldsFirst(before.Keys, n)
    requires kind in after && after == before[kind := after[kind]]
    ensures HoldsFirst(after.Keys, n + 1) && kind !in before
  {
    OrderDistinct(n);
  }

  lemma FirstHeld(kinds: set<Kind>, k: nat, n: nat)
    requires HoldsFirst(kinds, n) && k <= n
    ensures forall kind :: kind in First(k) ==> kind in kinds
  {
    forall kind | kind in First(k) ensures kind in kinds {
      var i :| 0 <= i < k && First(k)[i] == kind;
      assert AcquisitionOrder()[i] in kinds;
    }
  }

  lemma FlatIntact(m: Machine, h: Held)
    requires h.undo.Changes?
    ensures Intact(m, h) && Back(m, h).nodes == m.nodes
  {
  }

  lemma IntactIsClosed(m: Machine, h: Held)
    requires Intact(m, h) && h.undo.Created?
    ensures Closed(m.nodes)
  {
  }

  lemma StageAdded(before: Stages, after: Stages, n: nat, m: Machine, now: Machine)
    requires n < 7 && HoldsFirst(before.Keys, n) && HoldsFirst(after.Keys, n + 1)
    requires var kind := AcquisitionOrder()[n];
             kind in after && after == before[kind := after[kind]] && Intact(now, after[kind])
                 && Back(now, after[kind]) == m
    requires AllIntact(before, First(7), m)
    ensures AllIntact(after, First(7), now)
    ensures HeldBack(after, First(7), now) == HeldBack(before, First(7), m)
  {
    OrderDistinct(n);
    FirstHeld(before.Keys, n, n);
    hide AcquisitionOrder, First, HeldKinds, HeldBack, HeldChanges, AllIntact, HoldsFirst, Intact, Back;
    HeldFirst(before, n, 7, m);
    StageOnTop(before, after, n, m, now);
  }

  /** Doing more in the last stage. */
  lemma StageMore(before: Stages, after: Stages, n: nat, now: Machine, later: Machine)
    requires n < 7 && HoldsFirst(before.Keys, n + 1) && AllIntact(before, First(7), now)
    requires var kind := AcquisitionOrder()[n];
             && kind in before && kind in after && after == before[kind := after[kind]]
             && Intact(later, after[kind]) && Back(later, after[kind]) == Back(now, before[kind])
    ensures AllIntact(after, First(7), later) && HeldBack(after, First(7), later) == HeldBack(before, First(7), now)
    ensures HoldsFirst(after.Keys, n + 1)
  {
    assert after.Keys == before.Keys;
    OrderDistinct(n);
    FirstHeld(before.Keys, n, n + 1);
    hide AcquisitionOrder, First, HeldKinds, HeldBack, HeldChanges, AllIntact, HoldsFirst, Intact, Back;
    StageTop(before, n, now);
    StageOnTop(before, after, n, Back(now, before[AcquisitionOrder()[n]]), later);
  }

  lemma StageLogged(n: nat, earlier: seq<Event>)
    requires n < 7
    ensures earlier + Acquisitions(First(n + 1)) + [] ==
              earlier + Acquisitions(First(n)) + [] + [Acquired(AcquisitionOrder()[n])]
  {
    assert Acquisitions(First(n + 1)) == Acquisitions(First(n)) + [Acquired(AcquisitionOrder()[n])];
  }

  // ----- The whole installation -----

  /** Where the two trees go, what each stage changes, and what is written. */
  datatype Plan = Plan(
    root: Path, runnerRoot: Path, targets: Kind -> seq<Target>, brokerImage: bytes, controlImage: bytes,
    credential: bytes, configuration: bytes, metadata: bytes, runnerPackage: seq<Item>)

  function RootItems(root: Path): seq<Item>
  {
    [DirectoryItem(root), DirectoryItem(root + ["bin"]), DirectoryItem(root + ["state"])]
  }

  function RootFiles(plan: Plan): seq<Item>
  {
    [FileItem(plan.root + ["bin", "awg-broker.exe"], plan.brokerImage),
     FileItem(plan.root + ["bin", "awg.exe"], plan.controlImage),
     FileItem(plan.root + ["state", "execution-credential.dpapi"], plan.credential),
     FileItem(plan.root + ["state", "installation.json"], plan.configuration),
     FileItem(plan.root + ["state", "management.json"], plan.metadata)]
  }

  /** The runner's own root, its extracted package, and its two runtime directories. */
  function RunnerItems(plan: Plan): seq<Item>
  {
    [DirectoryItem(plan.runnerRoot)] + plan.runnerPackage
    + [DirectoryItem(plan.runnerRoot + ["_work"]), DirectoryItem(plan.runnerRoot + ["responses"])]
  }

  function RunnerFiles(plan: Plan): seq<Item>
  {
    [DirectoryItem(plan.runnerRoot + ["_awg"]), FileItem(plan.runnerRoot + ["_awg", "awg.exe"], plan.controlImage)]
  }

  /** What the lease on the runner's storage owns before the listener comes. */
  function RunnerStaging(plan: Plan): Staging
  {
    AllNoted(AllNoted(Staging(plan.runnerRoot, [], []), RunnerItems(plan)), RunnerFiles(plan))
  }

  /** There is room below the runner's root for what the listener adds. */
  predicate Roomy(plan: Plan) { |RunnerItems(plan)| + |RunnerFiles(plan)| <= MAX_ENTRIES }

  /** The package has the service's executable, and leaves the names free that registration writes to. */
  ghost predicate Registrable(plan: Plan)
  {
    var items := RunnerItems(plan) + RunnerFiles(plan);
    && Roomy(plan)
    && (exists j :: 0 <= j < |items| && items[j].FileItem? && items[j].path == plan.runnerRoot + SERVICE_EXECUTABLE)
    && forall j, k :: 0 <= j < |items| && 0 <= k < |REGISTRATION_FILES| ==>
         items[j].path != plan.runnerRoot + [REGISTRATION_FILES[k]]
  }

  /** The machine once everything is installed. */
  function Installed(plan: Plan, listener: Listener, m: Machine): Machine
  {
    var root := RootInstalled(plan, m);
    RunnerInstalled(plan, listener, Machine(Applied(root.objects, plan.targets(Service)), root.nodes))
  }

  /** Accounts, directory rights, and the root with all it holds. */
  function RootInstalled(plan: Plan, m: Machine): Machine
  {
    Machine(
      Applied(Applied(m.objects, plan.targets(Accounts)), plan.targets(Filesystem)),
      AllPlaced(AllPlaced(m.nodes, RootItems(plan.root)), RootFiles(plan)))
  }

  /** The runner's own tree with what configuring it left there, its registration and its service. */
  function RunnerInstalled(plan: Plan, listener: Listener, m: Machine): Machine
  {
    Machine(
      Applied(Applied(m.objects, plan.targets(Registration)), plan.targets(RunnerService)),
      Listening(listener, false, plan.runnerRoot,
                AllPlaced(AllPlaced(m.nodes, RunnerItems(plan)), RunnerFiles(plan))))
  }

  /** Every name is free when its turn comes, below what its own stage has made, and the runner can be registered. */
  ghost predicate Installable(plan: Plan, nodes: Tree)
  {
    && TreeFits(plan.root, nodes, RootItems(plan.root), RootFiles(plan))
    && RunnerFits(plan, AllPlaced(AllPlaced(nodes, RootItems(plan.root)), RootFiles(plan)))
  }

  ghost predicate RunnerFits(plan: Plan, nodes: Tree)
  {
    TreeFits(plan.runnerRoot, nodes, RunnerItems(plan), RunnerFiles(plan)) && Registrable(plan)
  }

  ghost predicate TreeFits(root: Path, nodes: Tree, first: seq<Item>, second: seq<Item>)
  {
    var empty := Staging(root, [], []);
    AllMayBePlaced(empty, nodes, first) && AllMayBePlaced(AllNoted(empty, first), AllPlaced(nodes, first), second)
  }

  /** Provisioning stopped after n stages, or in the middle of the next one, which then closed its own lease. */
  predicate Stopped(ok: bool, n: nat, tail: seq<Event>)
    requires n <= 7
  {
    tail == [] || (!ok && n < 7 && tail == [ClosedLease(AcquisitionOrder()[n])])
  }

  /** n stages were acquired, and m closed in reverse: the same n, or also the one that failed half-way. */
  ghost predicate TakenBack(earlier: seq<Event>, log: seq<Event>, n: nat, m: nat)
  {
    n <= m <= n + 1 && m <= 7 && log == earlier + Acquisitions(First(n)) + Closings(First(m))
  }

  /** provision: either all seven stages are held and everything is installed, which on a willing host with free names
      is certain, or every stage that was started was closed once, last first, none
      was committed, and the machine is as it was unless taking something back failed, which on a sound host it
      never does. */
  method ProvisionInstallation(host: Host, plan: Plan) returns (lease: Lease?)
    requires Closed(host.nodes) && !host.broken && host.Orderly() && plan.root != [] && plan.runnerRoot != []
    modifies host
    ensures lease != null ==>
              && fresh(lease) && fresh(lease.held.Values) && lease.host == host && lease.Reached(7) && lease.tail == []
              && lease.start == old(host.Now()) && lease.earlier == old(host.log)
              && lease.excused == (host.faulty || !Roomy(plan))
              && host.Now() == Installed(plan, host.listener, old(host.Now()))
              && Registered(host.nodes, plan.runnerRoot)
              && IsFile(host.nodes, plan.runnerRoot + SERVICE_EXECUTABLE)
    ensures host.willing && Installable(plan, old(host.nodes)) ==> lease != null
    ensures lease == null ==>
              && (exists n: nat, m: nat :: TakenBack(old(host.log), host.log, n, m))
              && (!host.broken ==> host.Now() == old(host.Now()))
    ensures host.broken ==> host.faulty || !Roomy(plan)
  {
    hide Installed, Installable, Roomy, Registered;
    var preflight := host.Check();
    if !preflight {
      NothingTaken(host.log);
      return null;
    }
    var attempt := new Lease(host, host.faulty || !Roomy(plan));
    NothingHeld(attempt.stages, attempt.start, host.log);
    var ok: bool;
    ghost var n: nat;
    ok, n := attempt.Steps(plan);
    if ok { return attempt; }
    HeldFirst(attempt.stages, n, 7, host.Now());
    ghost var tail := attempt.tail;
    var _ := attempt.Close();
    TakenBackAll(old(host.log), n, tail);
    lease := null;
  }

  lemma NothingTaken(log: seq<Event>)
    ensures TakenBack(log, log, 0, 0)
  {
    assert log == log + Acquisitions(First(0)) + Closings(First(0));
  }

  lemma NothingHeld(stages: Stages, start: Machine, log: seq<Event>)
    requires stages == map[]
    ensures AllIntact(stages, First(7), start) && HeldBack(stages, First(7), start) == start && HoldsFirst({}, 0)
    ensures log == log + Acquisitions(First(0)) + []
  {
    HeldFirst(stages, 0, 7, start);
    assert log + Acquisitions(First(0)) + [] == log;
  }

  lemma TakenBackAll(earlier: seq<Event>, n: nat, tail: seq<Event>)
    requires n <= 7 && Stopped(false, n, tail)
    ensures exists m: nat :: TakenBack(earlier, earlier + Acquisitions(First(n)) + tail + Closings(First(n)), n, m)
  {
    var log := earlier + Acquisitions(First(n)) + tail + Closings(First(n));
    if tail == [] {
      assert log == earlier + Acquisitions(First(n)) + Closings(First(n));
      assert TakenBack(earlier, log, n, n);
    } else {
      OrderDistinct(n);
      ClosingsSplit(First(n), AcquisitionOrder()[n]);
      assert log == earlier + Acquisitions(First(n)) + ([ClosedLease(AcquisitionOrder()[n])] + Closings(First(n)));
      assert TakenBack(earlier, log, n, n + 1);
    }
  }
}
