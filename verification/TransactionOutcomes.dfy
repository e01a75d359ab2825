/** How a registration transaction ends: by its candidate, its fence and its schedule alone. */
module TransactionOutcomes {
  import opened Wrappers
  import opened StringOrder
  import opened Registrations
  import opened DomainOwnership
  import opened Coordinator
  import opened OperationFences
  import opened RuntimeReceipts
  import opened DesiredState
  import opened DaemonTransactions
  import opened DaemonInvariants
  import opened DaemonEffects
  import opened HeartbeatCommutation

  // ---------------------------------------------------------------- what a fence is told

  /** The drain alone leaves a fence's epoch behind. */
  predicate EpochsFit(d: Daemon, f: Fence) {
    d.lifecycle.phase.Draining? <==> d.lifecycle.number != f.epoch
  }

  /** What a commit is told after these events: stale once the drain has begun, else revoked if anyone revoked. */
  function Told(d: Daemon, f: Fence, es: seq<EnvEvent>): Option<CommitRejection> {
    if d.lifecycle.phase.Draining? || EnvEvent.BeginDrain in es then Some(StaleEpoch)
    else if !f.permit.Active? || EnvEvent.Revoke in es then Some(CommitRejection.Revoked)
    else None
  }

  /** Events count in whatever portions they come. */
  lemma {:induction false} InterferenceIsTold(d: Daemon, f: Fence, es: seq<EnvEvent>)
    requires EpochsFit(d, f)
    ensures var (d1, f1) := Interfered(d, f, es, false);
            && EpochsFit(d1, f1)
            && Admission(d1.lifecycle, f1) == Told(d, f, es)
            && (d1.lifecycle.phase.Draining? <==> d.lifecycle.phase.Draining? || EnvEvent.BeginDrain in es)
            && (f1.permit.Active? <==> f.permit.Active? && EnvEvent.Revoke !in es)
    decreases |es|
  {
    if es != [] {
      var (d1, f1) := Disturbed(d, f, es[0], false);
      InterferenceIsTold(d1, f1, es[1..]);
      assert forall e :: e in es <==> e == es[0] || e in es[1..];
    }
  }

  lemma ToldInPortions(d: Daemon, f: Fence, first: seq<EnvEvent>, last: seq<EnvEvent>)
    requires EpochsFit(d, f)
    ensures var (d1, f1) := Interfered(d, f, first, false); Told(d1, f1, last) == Told(d, f, first + last)
  {
    hide Interfered;
    InterferenceIsTold(d, f, first);
  }

  lemma NobodyToldMeansHarmless(d: Daemon, f: Fence, es: seq<EnvEvent>)
    requires EpochsFit(d, f)
    ensures Told(d, f, es).None? <==> Admitted(d, f) && Harmless(es)
  {}

  // ---------------------------------------------------------------- what a transaction changes, and what that takes

  /** What publishing a registry does to the runtime. */
  datatype Change = Unchanged | Stopping | Applying

  /** Some enabled registration has no routes, or lists an enabled domain twice. */
  ghost predicate TroubledBy(regs: Registry, undeployable: set<string>) {
    exists k :: k in regs && ((regs[k].activation.IsEnabled() && k in undeployable) || !ListsEachOnce(regs[k]))
  }

  ghost function ChangeFor(regs: Registry, undeployable: set<string>): Change {
    if TroubledBy(regs, undeployable) then Unchanged else if Quiet(regs) then Stopping else Applying
  }

  ghost predicate ReceiptIsObtained(rt: Runtime, change: Change, f: BeginFaults) {
    !f.readFails && (change.Applying? ==> StagingWorks(rt, f.stage))
  }

  predicate AcceptanceWorks(rt: Runtime, change: Change, f: AcceptFaults) {
    if change.Applying? then f.promote.Promoted? else rt.effective.None? || f.remove.Removed?
  }

  ghost predicate StorageWorks(table: Option<Table>, regs: Registry, fails: bool) {
    table.Some? ==> !fails && CanBeStored(table.value, regs)
  }

  /** The calls that change the runtime all succeed, and Caddy takes the configuration. */
  ghost predicate RuntimeWorks(rt: Runtime, change: Change, s: Schedule) {
    change.Unchanged? ||
    (ReceiptIsObtained(rt, change, s.begin) && !s.outcomeFails && AcceptanceWorks(rt, change, s.accept))
  }

  /** The failure of a transaction that starts from this daemon, if any: the first thing that goes wrong. */
  ghost function OutcomeOf(d: Daemon, f: Fence, change: Change, regs: Registry, s: Schedule)
    : Option<TransactionFailure>
  {
    if !change.Unchanged? && Told(d, f, s.beforeTransition).Some? then
        Some(Fenced(Told(d, f, s.beforeTransition).value))
    else if !change.Unchanged? && (!ReceiptIsObtained(d.runtime, change, s.begin) || s.outcomeFails) then
      Some(RuntimeFailed)
    else if Told(d, f, s.beforeTransition + s.beforePublish).Some? then
      Some(Fenced(Told(d, f, s.beforeTransition + s.beforePublish).value))
    else if !change.Unchanged? && !AcceptanceWorks(d.runtime, change, s.accept) then Some(RuntimeFailed)
    else if !StorageWorks(d.table, regs, s.persistFails) then Some(StorageFailed)
    else None
  }

  // ---------------------------------------------------------------- proofs

  function ChangeOf(action: ApplyAction): Change {
    match action
    case Current(_) => Unchanged
    case Stop(_) => Stopping
    case Apply(_, _, _, _) => Applying
  }

  lemma ReceiptsAsAsked(rt: Runtime, action: ApplyAction, f: BeginFaults)
    requires !action.Current?
    ensures BegunTransition(rt, action, f).1.Some? <==> ReceiptIsObtained(rt, ChangeOf(action), f)
  {
    ReceiptsExactly(rt, if action.Apply? then action.rendered else [], f);
  }

  lemma AcceptanceAsAsked(rt: Runtime, action: ApplyAction, begin: BeginFaults, accept: AcceptFaults)
    requires !action.Current?
    ensures var (now, receipt) := BegunTransition(rt, action, begin);
            receipt.Some? ==>
              (AcceptedTransition(now, receipt, accept).2 <==> AcceptanceWorks(rt, ChangeOf(action), accept))
  {
    BeginningIsATransition(rt, if action.Apply? then action.rendered else [], begin);
    var (now, receipt) := BegunTransition(rt, action, begin);
    if receipt.Some? {
      AcceptsExactly(rt, now, receipt.value, accept);
    }
  }

  lemma StorageAsAsked(table: Option<Table>, regs: Registry, live: Registry, fails: bool)
    requires KeysAreIds(regs)
    ensures PersistedTable(table, Merged(regs, live), fails).Some? <==> StorageWorks(table, regs, fails)
  {
    MergedAlike(regs, live, map[], table, fails);
    assert Merged(regs, map[]) == regs;
    if table.Some? {
      StoringExactly(table.value, regs);
    }
  }

  /** How the publishing section ends. */
  lemma PublishedExactly(d: Daemon, f: Fence, p: Plan, regs: Registry, receipt: Option<Receipt>, s: Schedule)
    requires EpochsFit(d, f) && KeysAreIds(regs)
    ensures Published(d, f, p, regs, receipt, s).2 ==
            if Told(d, f, s.beforePublish).Some? then Some(Fenced(Told(d, f, s.beforePublish).value))
            else if !AcceptedTransition(d.runtime, receipt, s.accept).2 then Some(RuntimeFailed)
            else if !StorageWorks(d.table, regs, s.persistFails) then Some(StorageFailed)
            else None
  {
    hide RolledBackTransition;
    hide AcceptedTransition;
    hide PersistedTable;
    hide Interfered;
    hide Merged;
    hide StorageWorks;
    hide Told;
    InterferenceIsTold(d, f, s.beforePublish);
    InterferenceIsHeartbeats(d, f, s.beforePublish, false);
    var (d1, f1) := Interfered(d, f, s.beforePublish, false);
    InterferenceIsHeartbeats(d1, f1.(permit := Committing), s.duringPublish, true);
    StorageAsAsked(d.table, regs, d1.registrations, s.persistFails);
  }

  /** How the transition of the runtime ends, and what it leaves to publish. */
  lemma TransitionExactly(d: Daemon, f: Fence, p: Plan, regs: Registry, s: Schedule, how: Rendering)
    requires EpochsFit(d, f)
    ensures var a := AppliedTransition(d, f, p, regs, s, how);
            var change := ChangeOf(BegunApply(p, Values(regs), s.attemptedAt, how).1);
            && a.failure ==
               (if change.Unchanged? then None
                else if Told(d, f, s.beforeTransition).Some? then Some(Fenced(Told(d, f, s.beforeTransition).value))
                else if !ReceiptIsObtained(d.runtime, change, s.begin) || s.outcomeFails then Some(RuntimeFailed)
                else None)
            && (a.failure.None? ==>
                  && EpochsFit(a.daemon, a.fence) && a.daemon.table == d.table
                  && Told(a.daemon, a.fence, s.beforePublish) == Told(d, f, s.beforeTransition + s.beforePublish)
                  && (AcceptedTransition(a.daemon.runtime, a.receipt, s.accept).2 <==>
                        change.Unchanged? || AcceptanceWorks(d.runtime, change, s.accept)))
  {
    hide RolledBackTransition;
    hide BegunTransition;
    hide FinishedTransition;
    hide BegunApply;
    hide Interfered;
    hide Values;
    hide ReceiptIsObtained;
    hide AcceptanceWorks;
    InterferenceIsTold(d, f, s.beforeTransition);
    InterferenceIsHeartbeats(d, f, s.beforeTransition, false);
    ToldInPortions(d, f, s.beforeTransition, s.beforePublish);
    var action := BegunApply(p, Values(regs), s.attemptedAt, how).1;
    if !action.Current? {
      ReceiptsAsAsked(d.runtime, action, s.begin);
      AcceptanceAsAsked(d.runtime, action, s.begin, s.accept);
    }
  }

  lemma ChangeAsDecided(p: Plan, regs: Registry, now: int, how: Rendering)
    requires KeysAreIds(regs) && SingleOwner(regs)
    requires forall k | k in p.diagnostics :: p.diagnostics[k] != []
    ensures ChangeOf(BegunApply(p, Values(regs), now, how).1) == ChangeFor(regs, p.diagnostics.Keys)
  {
    hide BegunApply;
    hide Values;
    hide SingleOwner;
    hide Quiet;
    BeginApplyDecides(p, regs, now, how);
    assert Troubled(regs, p.diagnostics) <==> TroubledBy(regs, p.diagnostics.Keys);
  }

  /**
   How a transaction ends, and why: by whether anything changes for the runtime, who revoked or
   drained before the guard, which calls failed, whether Caddy took the configuration, and whether
   the registry can be stored. Rendering, digests and heartbeats have no part in it.
   */
  lemma ExecutedExactly(d: Daemon, f: Fence, p: Plan, regs: Registry, s: Schedule, how: Rendering)
    requires EpochsFit(d, f) && KeysAreIds(regs) && SingleOwner(regs)
    requires forall k | k in p.diagnostics :: p.diagnostics[k] != []
    ensures Executed(d, f, p, regs, s, how).2 == OutcomeOf(d, f, ChangeFor(regs, p.diagnostics.Keys), regs, s)
  {
    hide AppliedTransition;
    hide Published;
    hide ChangeFor;
    hide StorageWorks;
    hide ReceiptIsObtained;
    hide AcceptanceWorks;
    hide AcceptedTransition;
    hide SingleOwner;
    hide BegunApply;
    hide Values;
    hide Told;
    ChangeAsDecided(p, regs, s.attemptedAt, how);
    TransitionExactly(d, f, p, regs, s, how);
    var a := AppliedTransition(d, f, p, regs, s, how);
    if a.failure.None? {
      PublishedExactly(a.daemon, a.fence, a.plan, regs, a.receipt, s);
    }
  }

  /**
   A transaction publishes exactly when its fence was admitted when it began and nobody revoked it
   or drained before the guard, every call that changes the runtime succeeded and Caddy took the
   configuration (unless nothing changes for it), and what is published could be stored.
   */
  lemma PublishesExactly(d: Daemon, f: Fence, p: Plan, regs: Registry, s: Schedule, how: Rendering)
    requires EpochsFit(d, f) && KeysAreIds(regs) && SingleOwner(regs)
    requires forall k | k in p.diagnostics :: p.diagnostics[k] != []
    ensures Executed(d, f, p, regs, s, how).2.None? <==>
            && Admitted(d, f) && Harmless(s.beforeTransition) && Harmless(s.beforePublish)
            && RuntimeWorks(d.runtime, ChangeFor(regs, p.diagnostics.Keys), s)
            && StorageWorks(d.table, regs, s.persistFails)
  {
    hide ChangeFor;
    hide StorageWorks;
    hide ReceiptIsObtained;
    hide AcceptanceWorks;
    hide SingleOwner;
    hide Executed;
    ExecutedExactly(d, f, p, regs, s, how);
    NoOutcomeExactly(d, f, ChangeFor(regs, p.diagnostics.Keys), regs, s);
  }

  lemma NoOutcomeExactly(d: Daemon, f: Fence, change: Change, regs: Registry, s: Schedule)
    requires EpochsFit(d, f)
    ensures OutcomeOf(d, f, change, regs, s).None? <==>
            && Admitted(d, f) && Harmless(s.beforeTransition) && Harmless(s.beforePublish)
            && RuntimeWorks(d.runtime, change, s)
            && StorageWorks(d.table, regs, s.persistFails)
  {
    hide StorageWorks;
    hide ReceiptIsObtained;
    hide AcceptanceWorks;
    NobodyToldMeansHarmless(d, f, s.beforeTransition);
    NobodyToldMeansHarmless(d, f, s.beforeTransition + s.beforePublish);
    assert Harmless(s.beforeTransition + s.beforePublish) <==>
           Harmless(s.beforeTransition) && Harmless(s.beforePublish);
  }
}
