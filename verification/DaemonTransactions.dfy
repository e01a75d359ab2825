/**
 What a registration transaction does to the daemon, as a function of its inputs and of its
 schedule: which calls fail, and what other tasks do whenever the transaction waits.
 */
module DaemonTransactions {
  import opened Wrappers
  import opened Registrations
  import opened Coordinator
  import opened OperationFences
  import opened RuntimeReceipts
  import opened DesiredState

  /** An accepted heartbeat, as history remembers it. */
  datatype Heard = Heard(id: string, nonce: string, at: int)

  /** `table` is absent for a daemon without a database; `clock` and `heard` are history. */
  datatype Daemon = Daemon(
    registrations: Registry,
    plan: Plan,
    table: Option<Table>,
    runtime: Runtime,
    lifecycle: Lifecycle,
    shutdownRequested: bool,
    clock: int,
    heard: set<Heard>)

  /** What other tasks may do meanwhile: send a heartbeat, revoke this operation, begin the drain. */
  datatype EnvEvent = Heartbeat(id: string, nonce: string, now: int) | Revoke | BeginDrain

  datatype Schedule = Schedule(
    beforeClone: seq<EnvEvent>,
    restoreFails: bool,
    preparedAt: int,
    beforeTransition: seq<EnvEvent>,
    attemptedAt: int,
    begin: BeginFaults,
    outcomeFails: bool,
    reloadedAt: int,
    beforePublish: seq<EnvEvent>,
    duringPublish: seq<EnvEvent>,
    accept: AcceptFaults,
    persistFails: bool,
    beforeRollback: seq<EnvEvent>,
    rollback: RollbackFaults)

  datatype TransactionFailure = Fenced(rejection: CommitRejection) | RuntimeFailed | StorageFailed

  function Max(a: int, b: int): int {
    if a < b then b else a
  }

  /** The wall clock, taken as monotone: a reading never goes back behind an earlier one. */
  function Ticked(d: Daemon, now: int): Daemon {
    d.(clock := Max(d.clock, now))
  }

  predicate OwnedBy(regs: Registry, id: string, nonce: string) {
    id in regs && regs[id].nonce == nonce
  }

  /** The effect of a heartbeat under the registry lock, for a request whose own fence is admitted. */
  function Beaten(d: Daemon, id: string, nonce: string, now: int): Daemon {
    var t := Ticked(d, now);
    if !OwnedBy(d.registrations, id, nonce) then t
    else t.(registrations := d.registrations[id := d.registrations[id].(lastHeartbeat := t.clock)],
            heard := d.heard + {Heard(id, nonce, t.clock)})
  }

  /** One event of another task. Heartbeats wait while the publishing section holds the registry lock. */
  function Disturbed(d: Daemon, f: Fence, e: EnvEvent, locked: bool): (Daemon, Fence) {
    match e
    case Heartbeat(id, nonce, now) =>
      if locked || d.lifecycle.phase.Draining? then (d, f) else (Beaten(d, id, nonce, now), f)
    case Revoke => (d, Revoking(f).0)
    case BeginDrain => (d.(lifecycle := Drained(d.lifecycle)), f)
  }

  function Interfered(d: Daemon, f: Fence, es: seq<EnvEvent>, locked: bool): (Daemon, Fence)
    decreases |es|
  {
    if es == [] then (d, f)
    else
      var (d1, f1) := Disturbed(d, f, es[0], locked);
      Interfered(d1, f1, es[1..], locked)
  }

  function MergedHeartbeat(candidate: Registration, live: Registry, k: string): Registration {
    if k in live && candidate.nonce == live[k].nonce
    then candidate.(lastHeartbeat := Max(candidate.lastHeartbeat, live[k].lastHeartbeat)) else candidate
  }

  /** `merge_live_heartbeats`. */
  function Merged(candidate: Registry, live: Registry): Registry {
    map k | k in candidate :: MergedHeartbeat(candidate[k], live, k)
  }

  /** `rollback_runtime_transition`: a rollback that fails begins the drain and requests shutdown. */
  function RolledBackTransition(d: Daemon, f: Fence, receipt: Option<Receipt>, s: Schedule): (Daemon, Fence) {
    var (d1, f1) := Interfered(d, f, s.beforeRollback, false);
    if receipt.None? then (d1, f1)
    else
      var (rt, ok) := RolledBack(d1.runtime, receipt.value, s.rollback);
      var d2 := d1.(runtime := rt);
      if ok then (d2, f1) else (d2.(lifecycle := Drained(d2.lifecycle), shutdownRequested := true), f1)
  }

  function BegunTransition(rt: Runtime, action: ApplyAction, f: BeginFaults): (Runtime, Option<Receipt>)
    requires !action.Current?
  {
    if action.Stop? then BegunStop(rt, f) else BegunApplyConfig(rt, action.rendered, f)
  }

  function FinishedTransition(p: Plan, action: ApplyAction, reloadedAt: int): Plan
    requires !action.Current?
  {
    if action.Stop? then FinishedIdle(p, action.attempted)
    else FinishedApply(p, action.attempted, action.hash, action.sourceConfigPaths, true, reloadedAt)
  }

  /** The outcome of `apply_runtime_transition`. */
  datatype Transition = Transition(daemon: Daemon, fence: Fence, plan: Plan, receipt: Option<Receipt>,
                                   failure: Option<TransactionFailure>)

  function AppliedTransition(d: Daemon, f: Fence, p: Plan, regs: Registry, s: Schedule, how: Rendering): Transition {
    var (d1, f1) := Interfered(d, f, s.beforeTransition, false);
    var (p1, action) := BegunApply(p, Values(regs), s.attemptedAt, how);
    if action.Current? then Transition(d1, f1, p1, None, None)
    else if Admission(d1.lifecycle, f1).Some? then
      Transition(d1, f1, p1, None, Some(Fenced(Admission(d1.lifecycle, f1).value)))
    else
      var (rt, receipt) := BegunTransition(d1.runtime, action, s.begin);
      var d2 := d1.(runtime := rt);
      if receipt.None? then Transition(d2, f1, p1, None, Some(RuntimeFailed))
      else if s.outcomeFails then
        var (d3, f3) := RolledBackTransition(d2, f1, receipt, s);
        Transition(d3, f3, p1, None, Some(RuntimeFailed))
      else Transition(d2, f1, FinishedTransition(p1, action, s.reloadedAt), receipt, None)
  }

  function AcceptedTransition(rt: Runtime, receipt: Option<Receipt>, f: AcceptFaults)
    : (Runtime, Option<Receipt>, bool)
  {
    if receipt.None? then (rt, None, true)
    else var (next, after, ok) := Accepted(rt, receipt.value, f); (next, Some(after), ok)
  }

  function PersistedTable(table: Option<Table>, regs: Registry, fails: bool): Option<Option<Table>> {
    if table.None? then Some(None)
    else if fails || Persisted(table.value, Values(regs)).None? then None
    else Some(Persisted(table.value, Values(regs)))
  }

  /** With the guard taken: accept, persist, publish; or drop the guard and roll back. */
  function PublishedUnderGuard(d: Daemon, f: Fence, p: Plan, merged: Registry, receipt: Option<Receipt>, s: Schedule)
    : (Daemon, Fence, Option<TransactionFailure>)
  {
    var (d2, f2) := Interfered(d, f, s.duringPublish, true);
    var (rt, after, ok) := AcceptedTransition(d2.runtime, receipt, s.accept);
    var d3 := d2.(runtime := rt);
    var table := PersistedTable(d3.table, merged, s.persistFails);
    if !ok then
      var (d4, f4) := RolledBackTransition(d3, DroppingGuard(f2), after, s);
      (d4, f4, Some(RuntimeFailed))
    else if table.None? then
      var (d4, f4) := RolledBackTransition(d3, DroppingGuard(f2), after, s);
      (d4, f4, Some(StorageFailed))
    else
      (d3.(registrations := merged, plan := p, table := table.value), f2.(permit := PermitState.Finalized), None)
  }

  /** The publishing section: merge, and take the guard or roll back. */
  function Published(d: Daemon, f: Fence, p: Plan, regs: Registry, receipt: Option<Receipt>, s: Schedule)
    : (Daemon, Fence, Option<TransactionFailure>)
  {
    var (d1, f1) := Interfered(d, f, s.beforePublish, false);
    var merged := Merged(regs, d1.registrations);
    if Admission(d1.lifecycle, f1).Some? then
      var (d2, f2) := RolledBackTransition(d1, f1, receipt, s);
      (d2, f2, Some(Fenced(Admission(d1.lifecycle, f1).value)))
    else PublishedUnderGuard(d1, f1.(permit := Committing), p, merged, receipt, s)
  }

  /** `execute_registration_transaction`. */
  function Executed(d: Daemon, f: Fence, p: Plan, regs: Registry, s: Schedule, how: Rendering)
    : (Daemon, Fence, Option<TransactionFailure>)
  {
    var a := AppliedTransition(d, f, p, regs, s, how);
    if a.failure.Some? then (a.daemon, a.fence, a.failure)
    else Published(a.daemon, a.fence, a.plan, regs, a.receipt, s)
  }

  // ---------------------------------------------------------------- interference

  predicate SameButHeartbeat(a: Registration, b: Registration) {
    a == b.(lastHeartbeat := a.lastHeartbeat)
  }

  ghost predicate SameButHeartbeats(a: Registry, b: Registry) {
    a.Keys == b.Keys && forall k | k in a :: SameButHeartbeat(a[k], b[k])
  }

  /** Heartbeats only move a registration's last heartbeat, and only as the clock moves. */
  ghost predicate HeartbeatsOnly(before: Daemon, after: Daemon) {
    && SameButHeartbeats(after.registrations, before.registrations)
    && after.plan == before.plan && after.table == before.table && after.runtime == before.runtime
    && after.shutdownRequested == before.shutdownRequested
    && before.clock <= after.clock && before.heard <= after.heard
  }

  /** No heartbeat is lost: whoever still holds the id under the same nonce is at least that fresh. */
  ghost predicate NoHeartbeatLost(d: Daemon) {
    && (forall h | h in d.heard :: h.at <= d.clock)
    && (forall k | k in d.registrations :: d.registrations[k].lastHeartbeat <= d.clock)
    && (forall h | h in d.heard && OwnedBy(d.registrations, h.id, h.nonce) ::
          h.at <= d.registrations[h.id].lastHeartbeat)
  }

  lemma BeatingKeepsHeartbeats(d: Daemon, id: string, nonce: string, now: int)
    requires NoHeartbeatLost(d)
    ensures NoHeartbeatLost(Beaten(d, id, nonce, now))
  {}

  lemma DisturbanceIsHeartbeats(d: Daemon, f: Fence, e: EnvEvent, locked: bool)
    ensures HeartbeatsOnly(d, Disturbed(d, f, e, locked).0)
    ensures locked ==> Disturbed(d, f, e, locked).0.registrations == d.registrations
  {}

  lemma HeartbeatsOnlyIsTransitive(a: Daemon, b: Daemon, c: Daemon)
    requires HeartbeatsOnly(a, b) && HeartbeatsOnly(b, c)
    ensures HeartbeatsOnly(a, c)
  {}

  lemma NothingIsHeartbeats(d: Daemon)
    ensures HeartbeatsOnly(d, d)
  {}

  lemma TickingIsHeartbeats(start: Daemon, d: Daemon, now: int)
    requires HeartbeatsOnly(start, d)
    ensures HeartbeatsOnly(start, Ticked(d, now))
  {}

  lemma BeatingIsHeartbeats(start: Daemon, d: Daemon, id: string, nonce: string, now: int)
    requires HeartbeatsOnly(start, d)
    ensures HeartbeatsOnly(start, Beaten(d, id, nonce, now))
  {}

  lemma {:induction false} InterferenceIsHeartbeats(d: Daemon, f: Fence, es: seq<EnvEvent>, locked: bool)
    ensures HeartbeatsOnly(d, Interfered(d, f, es, locked).0)
    ensures locked ==> Interfered(d, f, es, locked).0.registrations == d.registrations
    decreases |es|
  {
    if es != [] {
      var (d1, f1) := Disturbed(d, f, es[0], locked);
      DisturbanceIsHeartbeats(d, f, es[0], locked);
      InterferenceIsHeartbeats(d1, f1, es[1..], locked);
      HeartbeatsOnlyIsTransitive(d, d1, Interfered(d, f, es, locked).0);
    }
  }

  lemma {:induction false} InterferenceKeepsHeartbeats(d: Daemon, f: Fence, es: seq<EnvEvent>, locked: bool)
    requires NoHeartbeatLost(d)
    ensures NoHeartbeatLost(Interfered(d, f, es, locked).0)
    decreases |es|
  {
    if es != [] {
      var (d1, f1) := Disturbed(d, f, es[0], locked);
      if es[0].Heartbeat? {
        BeatingKeepsHeartbeats(d, es[0].id, es[0].nonce, es[0].now);
      }
      InterferenceKeepsHeartbeats(d1, f1, es[1..], locked);
    }
  }

  /** What interference can do to the fence and the lifecycle. */
  lemma {:induction false} InterferenceAndTheFence(d: Daemon, f: Fence, es: seq<EnvEvent>, locked: bool)
    ensures var (d1, f1) := Interfered(d, f, es, locked);
            && f1.epoch == f.epoch
            && (d1.lifecycle == d.lifecycle || d1.lifecycle == Drained(d.lifecycle))
            && (f1 == f || (f.permit.Active? && f1.permit.Revoked?))
    decreases |es|
  {
    if es != [] {
      var (d1, f1) := Disturbed(d, f, es[0], locked);
      InterferenceAndTheFence(d1, f1, es[1..], locked);
    }
  }

  // ---------------------------------------------------------------- all or nothing

  /** Nothing a client can see has changed, heartbeats aside. */
  ghost predicate Untouched(before: Daemon, after: Daemon) {
    && SameButHeartbeats(after.registrations, before.registrations)
    && after.plan == before.plan
    && after.table == before.table
    && (SameService(after.runtime, before.runtime) || (after.shutdownRequested && after.lifecycle.phase.Draining?))
  }

  /** Failures of file removals are the only way a staged file can stay behind. */
  predicate RemovalsWork(s: Schedule) {
    !s.begin.stage.removalFails && !s.rollback.stage.removalFails && !s.rollback.dropFails
  }

  /** A daemon in the middle of a transaction: everything published is as it was, the runtime is in transition. */
  ghost predicate Midway(before: Daemon, now: Daemon, receipt: Option<Receipt>) {
    && SameButHeartbeats(now.registrations, before.registrations)
    && now.plan == before.plan && now.table == before.table && now.shutdownRequested == before.shutdownRequested
    && (receipt.None? ==> now.runtime == before.runtime)
    && (receipt.Some? ==> InTransition(before.runtime, now.runtime, receipt.value))
  }

  lemma RollingBackIsNothing(before: Daemon, now: Daemon, f: Fence, receipt: Option<Receipt>, s: Schedule)
    requires Midway(before, now, receipt)
    ensures var (after, f1) := RolledBackTransition(now, f, receipt, s);
            && Untouched(before, after)
            && (after.shutdownRequested && !before.shutdownRequested ==> after.lifecycle.phase.Draining?)
            && (!after.shutdownRequested ==> SameService(after.runtime, before.runtime))
            && (RemovalsWork(s) ==> after.runtime.candidates == before.runtime.candidates)
  {
    InterferenceIsHeartbeats(now, f, s.beforeRollback, false);
    if receipt.Some? {
      RollbackRestores(before.runtime, now.runtime, receipt.value, s.rollback);
    }
  }

  lemma TransitionIsMidway(d: Daemon, f: Fence, p: Plan, regs: Registry, s: Schedule, how: Rendering)
    ensures var a := AppliedTransition(d, f, p, regs, s, how);
            && (a.failure.None? ==>
                  && Midway(d, a.daemon, a.receipt)
                  && (a.receipt.Some? && a.receipt.value.ApplyReceipt? ==> !a.receipt.value.promoted))
            && (a.failure.Some? ==>
                  && Untouched(d, a.daemon)
                  && (!a.daemon.shutdownRequested ==> SameService(a.daemon.runtime, d.runtime))
                  && (RemovalsWork(s) ==> a.daemon.runtime.candidates == d.runtime.candidates))
  {
    hide RolledBackTransition;
    hide BegunApply;
    hide Interfered;
    hide Admission;
    hide Values;
    var (d1, f1) := Interfered(d, f, s.beforeTransition, false);
    InterferenceIsHeartbeats(d, f, s.beforeTransition, false);
    var (p1, action) := BegunApply(p, Values(regs), s.attemptedAt, how);
    if !action.Current? && Admission(d1.lifecycle, f1).None? {
      var (rt, receipt) := BegunTransition(d1.runtime, action, s.begin);
      var rendered := if action.Apply? then action.rendered else [];
      NoReceiptNoChange(d1.runtime, rendered, s.begin);
      BeginningIsATransition(d1.runtime, rendered, s.begin);
      if receipt.Some? && s.outcomeFails {
        RollingBackIsNothing(d, d1.(runtime := rt), f1, receipt, s);
      }
    }
  }

  lemma FailedUnderGuard(before: Daemon, d: Daemon, f: Fence, p: Plan, merged: Registry, receipt: Option<Receipt>,
                         s: Schedule)
    requires Midway(before, d, receipt)
    requires receipt.Some? && receipt.value.ApplyReceipt? ==> !receipt.value.promoted
    ensures var (after, _, failure) := PublishedUnderGuard(d, f, p, merged, receipt, s);
            failure.Some? ==>
              && Untouched(before, after)
              && (!after.shutdownRequested ==> SameService(after.runtime, before.runtime))
              && (RemovalsWork(s) ==> after.runtime.candidates == before.runtime.candidates)
  {
    hide RolledBackTransition;
    hide PersistedTable;
    hide Interfered;
    hide Accepted;
    var (d2, f2) := Interfered(d, f, s.duringPublish, true);
    InterferenceIsHeartbeats(d, f, s.duringPublish, true);
    var (rt, after, ok) := AcceptedTransition(d2.runtime, receipt, s.accept);
    if receipt.Some? {
      AcceptingStaysATransition(before.runtime, d2.runtime, receipt.value, s.accept);
    }
    RollingBackIsNothing(before, d2.(runtime := rt), DroppingGuard(f2), after, s);
  }

  lemma FailedPublishing(before: Daemon, d: Daemon, f: Fence, p: Plan, regs: Registry, receipt: Option<Receipt>,
                         s: Schedule)
    requires Midway(before, d, receipt)
    requires receipt.Some? && receipt.value.ApplyReceipt? ==> !receipt.value.promoted
    ensures var (after, _, failure) := Published(d, f, p, regs, receipt, s);
            failure.Some? ==>
              && Untouched(before, after)
              && (!after.shutdownRequested ==> SameService(after.runtime, before.runtime))
              && (RemovalsWork(s) ==> after.runtime.candidates == before.runtime.candidates)
  {
    hide RolledBackTransition;
    hide PublishedUnderGuard;
    hide Interfered;
    var (d1, f1) := Interfered(d, f, s.beforePublish, false);
    InterferenceIsHeartbeats(d, f, s.beforePublish, false);
    RollingBackIsNothing(before, d1, f1, receipt, s);
    FailedUnderGuard(before, d1, f1.(permit := Committing), p, Merged(regs, d1.registrations), receipt, s);
  }

  /** What a successful publishing section publishes. */
  lemma SuccessfulPublishing(d: Daemon, f: Fence, p: Plan, regs: Registry, receipt: Option<Receipt>, s: Schedule)
    requires Published(d, f, p, regs, receipt, s).2.None?
    ensures var after := Published(d, f, p, regs, receipt, s).0;
            && after.plan == p && SameButHeartbeats(after.registrations, regs)
            && Some(after.table) == PersistedTable(d.table, after.registrations, s.persistFails)
            && after.shutdownRequested == d.shutdownRequested
            && AcceptedTransition(d.runtime, receipt, s.accept).2
            && after.runtime == AcceptedTransition(d.runtime, receipt, s.accept).0
  {
    var (d1, f1) := Interfered(d, f, s.beforePublish, false);
    InterferenceIsHeartbeats(d, f, s.beforePublish, false);
    InterferenceIsHeartbeats(d1, f1.(permit := Committing), s.duringPublish, true);
  }

  /**
   All or nothing. If a transaction fails at any step, for whatever reason and under whatever
   interference, registrations (heartbeats aside), coordinator, stored desired state, runtime and
   effective file are as before, or else a failed rollback has begun the drain and requested shutdown.
   */
  lemma TransactionsAreAllOrNothing(d: Daemon, f: Fence, p: Plan, regs: Registry, s: Schedule, how: Rendering)
    ensures var (after, f1, failure) := Executed(d, f, p, regs, s, how);
            failure.Some? ==>
              && Untouched(d, after)
              && (!after.shutdownRequested ==> SameService(after.runtime, d.runtime))
              && (RemovalsWork(s) ==> after.runtime.candidates == d.runtime.candidates)
  {
    TransitionIsMidway(d, f, p, regs, s, how);
    var a := AppliedTransition(d, f, p, regs, s, how);
    if a.failure.None? {
      FailedPublishing(d, a.daemon, a.fence, a.plan, regs, a.receipt, s);
    }
  }

  // ---------------------------------------------------------------- the fence and the heartbeats

  predicate Undecided(f: Fence) {
    f.permit.Active? || f.permit.Revoked?
  }

  lemma RollingBackKeepsThePermit(d: Daemon, f: Fence, receipt: Option<Receipt>, s: Schedule)
    requires Undecided(f)
    ensures Undecided(RolledBackTransition(d, f, receipt, s).1)
  {
    InterferenceAndTheFence(d, f, s.beforeRollback, false);
  }

  /** A transaction publishes exactly when it leaves its fence finalized; a failed one leaves it active or revoked. */
  lemma PublishedMeansFinalized(d: Daemon, f: Fence, p: Plan, regs: Registry, s: Schedule, how: Rendering)
    requires Undecided(f)
    ensures var (after, f1, failure) := Executed(d, f, p, regs, s, how);
            && (failure.None? ==> f1.permit.Finalized?)
            && (failure.Some? ==> Undecided(f1))
  {
    hide RolledBackTransition;
    hide BegunTransition;
    hide FinishedTransition;
    hide BegunApply;
    hide Interfered;
    hide Values;
    hide Published;
    hide Admission;
    InterferenceAndTheFence(d, f, s.beforeTransition, false);
    var (d1, f1) := Interfered(d, f, s.beforeTransition, false);
    var (p1, action) := BegunApply(p, Values(regs), s.attemptedAt, how);
    if !action.Current? {
      var (rt, receipt) := BegunTransition(d1.runtime, action, s.begin);
      RollingBackKeepsThePermit(d1.(runtime := rt), f1, receipt, s);
    }
    var a := AppliedTransition(d, f, p, regs, s, how);
    if a.failure.None? {
      PublishedSectionFinalizes(a.daemon, a.fence, a.plan, regs, a.receipt, s);
    }
  }

  lemma PublishedSectionFinalizes(d: Daemon, f: Fence, p: Plan, regs: Registry, receipt: Option<Receipt>, s: Schedule)
    requires Undecided(f)
    ensures var (after, f1, failure) := Published(d, f, p, regs, receipt, s);
            && (failure.None? ==> f1.permit.Finalized?)
            && (failure.Some? ==> Undecided(f1))
  {
    hide RolledBackTransition;
    hide AcceptedTransition;
    hide PersistedTable;
    hide Interfered;
    hide Merged;
    InterferenceAndTheFence(d, f, s.beforePublish, false);
    var (d1, f1) := Interfered(d, f, s.beforePublish, false);
    RollingBackKeepsThePermit(d1, f1, receipt, s);
    var (d2, f2) := Interfered(d1, f1.(permit := Committing), s.duringPublish, true);
    InterferenceAndTheFence(d1, f1.(permit := Committing), s.duringPublish, true);
    if Admission(d1.lifecycle, f1).None? {
      var (rt, after, ok) := AcceptedTransition(d2.runtime, receipt, s.accept);
      RollingBackKeepsThePermit(d2.(runtime := rt), DroppingGuard(f2), after, s);
    }
  }

  /** Everything newly heard was for someone registered under that nonce. */
  lemma {:induction false} NewlyHeardAreRegistered(d: Daemon, f: Fence, es: seq<EnvEvent>, locked: bool)
    ensures forall h | h in Interfered(d, f, es, locked).0.heard && h !in d.heard ::
            OwnedBy(d.registrations, h.id, h.nonce)
    decreases |es|
  {
    if es != [] {
      var (d1, f1) := Disturbed(d, f, es[0], locked);
      DisturbanceIsHeartbeats(d, f, es[0], locked);
      NewlyHeardAreRegistered(d1, f1, es[1..], locked);
    }
  }

  /** A candidate is no fresher than the clock, and as fresh as what was heard of anyone it brings in anew. */
  ghost predicate CandidateIsFresh(regs: Registry, d: Daemon) {
    forall k | k in regs ::
      && regs[k].lastHeartbeat <= d.clock
      && (OwnedBy(d.registrations, k, regs[k].nonce)
          || forall h | h in d.heard && h.id == k && h.nonce == regs[k].nonce :: h.at <= regs[k].lastHeartbeat)
  }

  lemma MergingLosesNoHeartbeat(d: Daemon, live: Daemon, regs: Registry)
    requires CandidateIsFresh(regs, d)
    requires NoHeartbeatLost(live) && HeartbeatsOnly(d, live)
    requires forall h | h in live.heard && h !in d.heard :: OwnedBy(d.registrations, h.id, h.nonce)
    ensures NoHeartbeatLost(live.(registrations := Merged(regs, live.registrations)))
  {
    var merged := Merged(regs, live.registrations);
    forall h | h in live.heard && OwnedBy(merged, h.id, h.nonce) ensures h.at <= merged[h.id].lastHeartbeat {
      if OwnedBy(d.registrations, h.id, h.nonce) {
        assert OwnedBy(live.registrations, h.id, h.nonce);
      }
    }
  }

  /** Whatever happens to the runtime or the fences of a daemon, its heartbeats stay. */
  lemma RollingBackKeepsHeartbeats(d: Daemon, f: Fence, receipt: Option<Receipt>, s: Schedule)
    requires NoHeartbeatLost(d)
    ensures NoHeartbeatLost(RolledBackTransition(d, f, receipt, s).0)
  {
    InterferenceKeepsHeartbeats(d, f, s.beforeRollback, false);
  }

  lemma GuardedPublishingLosesNoHeartbeat(start: Daemon, d: Daemon, f: Fence, p: Plan, regs: Registry,
                                          receipt: Option<Receipt>, s: Schedule)
    requires CandidateIsFresh(regs, start) && NoHeartbeatLost(d)
    requires SameButHeartbeats(d.registrations, start.registrations) && start.clock <= d.clock && start.heard <= d.heard
    requires forall h | h in d.heard && h !in start.heard :: OwnedBy(start.registrations, h.id, h.nonce)
    ensures NoHeartbeatLost(PublishedUnderGuard(d, f, p, Merged(regs, d.registrations), receipt, s).0)
  {
    hide RolledBackTransition;
    hide AcceptedTransition;
    hide PersistedTable;
    hide Interfered;
    hide Merged;
    var (d2, f2) := Interfered(d, f, s.duringPublish, true);
    InterferenceIsHeartbeats(d, f, s.duringPublish, true);
    InterferenceKeepsHeartbeats(d, f, s.duringPublish, true);
    NewlyHeardAreRegistered(d, f, s.duringPublish, true);
    var (rt, after, ok) := AcceptedTransition(d2.runtime, receipt, s.accept);
    RollingBackKeepsHeartbeats(d2.(runtime := rt), DroppingGuard(f2), after, s);
    var from := d2.(registrations := start.registrations, clock := start.clock, heard := start.heard);
    MergingLosesNoHeartbeat(from, d2, regs);
  }

  lemma PublishingLosesNoHeartbeat(start: Daemon, d: Daemon, f: Fence, p: Plan, regs: Registry,
                                   receipt: Option<Receipt>, s: Schedule)
    requires CandidateIsFresh(regs, start) && NoHeartbeatLost(d)
    requires SameButHeartbeats(d.registrations, start.registrations) && start.clock <= d.clock && start.heard <= d.heard
    requires forall h | h in d.heard && h !in start.heard :: OwnedBy(start.registrations, h.id, h.nonce)
    ensures NoHeartbeatLost(Published(d, f, p, regs, receipt, s).0)
  {
    hide RolledBackTransition;
    hide PublishedUnderGuard;
    hide Interfered;
    var (d1, f1) := Interfered(d, f, s.beforePublish, false);
    InterferenceKeepsHeartbeats(d, f, s.beforePublish, false);
    InterferenceIsHeartbeats(d, f, s.beforePublish, false);
    NewlyHeardAreRegistered(d, f, s.beforePublish, false);
    RollingBackKeepsHeartbeats(d1, f1, receipt, s);
    GuardedPublishingLosesNoHeartbeat(start, d1, f1.(permit := Committing), p, regs, receipt, s);
  }

  lemma TransitionKeepsHeartbeats(d: Daemon, f: Fence, p: Plan, regs: Registry, s: Schedule, how: Rendering)
    requires NoHeartbeatLost(d)
    ensures var a := AppliedTransition(d, f, p, regs, s, how);
            var d1 := Interfered(d, f, s.beforeTransition, false).0;
            && NoHeartbeatLost(a.daemon)
            && (a.failure.None? ==> a.daemon == d1.(runtime := a.daemon.runtime))
  {
    hide RolledBackTransition;
    hide BegunTransition;
    hide BegunApply;
    hide Interfered;
    var (d1, f1) := Interfered(d, f, s.beforeTransition, false);
    InterferenceKeepsHeartbeats(d, f, s.beforeTransition, false);
    var (p1, action) := BegunApply(p, Values(regs), s.attemptedAt, how);
    if !action.Current? {
      var (rt, receipt) := BegunTransition(d1.runtime, action, s.begin);
      RollingBackKeepsHeartbeats(d1.(runtime := rt), f1, receipt, s);
    }
  }

  /** No heartbeat is lost to a transaction, whether it publishes or fails. */
  lemma TransactionsLoseNoHeartbeat(d: Daemon, f: Fence, p: Plan, regs: Registry, s: Schedule, how: Rendering)
    requires NoHeartbeatLost(d) && CandidateIsFresh(regs, d)
    ensures NoHeartbeatLost(Executed(d, f, p, regs, s, how).0)
  {
    TransitionKeepsHeartbeats(d, f, p, regs, s, how);
    var a := AppliedTransition(d, f, p, regs, s, how);
    if a.failure.None? {
      InterferenceIsHeartbeats(d, f, s.beforeTransition, false);
      NewlyHeardAreRegistered(d, f, s.beforeTransition, false);
      PublishingLosesNoHeartbeat(d, a.daemon, a.fence, a.plan, regs, a.receipt, s);
    }
  }
}
