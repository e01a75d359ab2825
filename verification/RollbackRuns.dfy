/** Runs in which every rollback can succeed never come to request shutdown. */
module RollbackRuns {
  import opened Wrappers
  import opened Registrations
  import opened Coordinator
  import opened DesiredState
  import opened RuntimeReceipts
  import opened DaemonTransactions
  import opened DaemonRequests
  import opened DaemonInvariants
  import opened DaemonRuns
  import OperationFences

  /** Among the names it may try, the rollback has one that the transition did not use. */
  predicate HasSpareName(s: Schedule) {
    exists i :: 0 <= i < |s.rollback.stage.names| && i < CREATE_ATTEMPTS
                && s.rollback.stage.names[i] !in s.begin.stage.names
  }

  /** No call of a rollback fails, and none that removes a staged file. */
  predicate RollbacksWork(s: Schedule) {
    && RemovalsWork(s)
    && !s.rollback.stage.createFails && !s.rollback.stage.writeFails
    && s.rollback.promote.Promoted? && s.rollback.remove.Removed?
    && HasSpareName(s)
  }

  /** The only staged file is the transition's own. */
  predicate OnlyItsOwnFile(rt: Runtime, s: Schedule) {
    forall c | c in rt.candidates :: c in s.begin.stage.names
  }

  lemma RollbackSucceeds(rt: Runtime, r: Receipt, s: Schedule)
    requires RollbacksWork(s) && OnlyItsOwnFile(rt, s)
    ensures RolledBack(rt, r, s.rollback).1
  {
    var i :| 0 <= i < |s.rollback.stage.names| && i < CREATE_ATTEMPTS
             && s.rollback.stage.names[i] !in s.begin.stage.names;
    assert s.rollback.stage.names[i] !in rt.candidates.Keys;
    RollbackExactly(rt, r, s.rollback);
  }

  lemma RollingBackSucceeds(d: Daemon, f: OperationFences.Fence, receipt: Option<Receipt>, s: Schedule)
    requires RollbacksWork(s) && OnlyItsOwnFile(d.runtime, s)
    ensures RolledBackTransition(d, f, receipt, s).0.shutdownRequested == d.shutdownRequested
  {
    hide RolledBack;
    hide Interfered;
    hide RollbacksWork;
    InterferenceIsHeartbeats(d, f, s.beforeRollback, false);
    if receipt.Some? {
      RollbackSucceeds(d.runtime, receipt.value, s);
    }
  }

  lemma BeginningUsesItsNames(rt: Runtime, action: ApplyAction, s: Schedule)
    requires !action.Current? && rt.candidates == map[]
    ensures OnlyItsOwnFile(BegunTransition(rt, action, s.begin).0, s)
  {
    FreshNameIsFresh(s.begin.stage.names, rt.candidates.Keys, CREATE_ATTEMPTS);
  }

  lemma TransitionNeedsNoShutdown(d: Daemon, f: OperationFences.Fence, p: Plan, regs: Registry, s: Schedule,
                                  how: Rendering)
    requires RollbacksWork(s) && d.runtime.candidates == map[]
    ensures var a := AppliedTransition(d, f, p, regs, s, how);
            && a.daemon.shutdownRequested == d.shutdownRequested
            && (a.failure.None? ==> OnlyItsOwnFile(a.daemon.runtime, s))
  {
    hide RolledBackTransition;
    hide BegunTransition;
    hide FinishedTransition;
    hide BegunApply;
    hide Interfered;
    hide OperationFences.Admission;
    hide Values;
    hide RollbacksWork;
    var (d1, f1) := Interfered(d, f, s.beforeTransition, false);
    InterferenceIsHeartbeats(d, f, s.beforeTransition, false);
    var (p1, action) := BegunApply(p, Values(regs), s.attemptedAt, how);
    if !action.Current? {
      var (rt, receipt) := BegunTransition(d1.runtime, action, s.begin);
      BeginningUsesItsNames(d1.runtime, action, s);
      RollingBackSucceeds(d1.(runtime := rt), f1, receipt, s);
    }
  }

  lemma AcceptingKeepsItsNames(rt: Runtime, receipt: Option<Receipt>, s: Schedule)
    requires OnlyItsOwnFile(rt, s)
    ensures OnlyItsOwnFile(AcceptedTransition(rt, receipt, s.accept).0, s)
  {}

  lemma PublishingNeedsNoShutdown(d: Daemon, f: OperationFences.Fence, p: Plan, regs: Registry,
                                  receipt: Option<Receipt>, s: Schedule)
    requires RollbacksWork(s) && OnlyItsOwnFile(d.runtime, s)
    ensures Published(d, f, p, regs, receipt, s).0.shutdownRequested == d.shutdownRequested
  {
    hide RolledBackTransition;
    hide PublishedUnderGuard;
    hide Interfered;
    hide RollbacksWork;
    var (d1, f1) := Interfered(d, f, s.beforePublish, false);
    InterferenceIsHeartbeats(d, f, s.beforePublish, false);
    RollingBackSucceeds(d1, f1, receipt, s);
    GuardedPublishingNeedsNoShutdown(d1, f1.(permit := OperationFences.Committing), p,
                                     Merged(regs, d1.registrations), receipt, s);
  }

  lemma GuardedPublishingNeedsNoShutdown(d: Daemon, f: OperationFences.Fence, p: Plan, merged: Registry,
                                         receipt: Option<Receipt>, s: Schedule)
    requires RollbacksWork(s) && OnlyItsOwnFile(d.runtime, s)
    ensures PublishedUnderGuard(d, f, p, merged, receipt, s).0.shutdownRequested == d.shutdownRequested
  {
    hide RolledBackTransition;
    hide AcceptedTransition;
    hide PersistedTable;
    hide Interfered;
    hide RollbacksWork;
    var (d1, f1) := Interfered(d, f, s.duringPublish, true);
    InterferenceIsHeartbeats(d, f, s.duringPublish, true);
    var (rt, after, ok) := AcceptedTransition(d1.runtime, receipt, s.accept);
    AcceptingKeepsItsNames(d1.runtime, receipt, s);
    RollingBackSucceeds(d1.(runtime := rt), OperationFences.DroppingGuard(f1), after, s);
  }

  /** A published transaction leaves no staged file behind. */
  lemma PublishedLeavesNoFile(d: Daemon, f: OperationFences.Fence, p: Plan, regs: Registry, s: Schedule, how: Rendering)
    requires Executed(d, f, p, regs, s, how).2.None?
    ensures Executed(d, f, p, regs, s, how).0.runtime.candidates == d.runtime.candidates
  {
    hide AppliedTransition;
    hide Published;
    hide BegunApply;
    hide BegunTransition;
    hide Values;
    var a := AppliedTransition(d, f, p, regs, s, how);
    var (p1, action) := BegunApply(p, Values(regs), s.attemptedAt, how);
    TransitionShape(d, f, p, regs, s, how);
    SuccessfulPublishing(a.daemon, a.fence, a.plan, regs, a.receipt, s);
    if !action.Current? {
      BegunThenAccepted(d.runtime, action, s.begin, s.accept);
    }
  }

  lemma ExecutedNeedsNoShutdown(d: Daemon, f: OperationFences.Fence, p: Plan, regs: Registry, s: Schedule,
                                how: Rendering)
    requires RollbacksWork(s) && d.runtime.candidates == map[]
    ensures var after := Executed(d, f, p, regs, s, how).0;
            after.shutdownRequested == d.shutdownRequested && after.runtime.candidates == map[]
  {
    hide AppliedTransition;
    hide Published;
    TransitionNeedsNoShutdown(d, f, p, regs, s, how);
    var a := AppliedTransition(d, f, p, regs, s, how);
    if a.failure.None? {
      PublishingNeedsNoShutdown(a.daemon, a.fence, a.plan, regs, a.receipt, s);
    }
    TransactionsAreAllOrNothing(d, f, p, regs, s, how);
    if Executed(d, f, p, regs, s, how).2.None? {
      PublishedLeavesNoFile(d, f, p, regs, s, how);
    }
  }

  ghost predicate WorkingStep(step: Step) {
    step.Serve? ==> RollbacksWork(step.s)
  }

  lemma NextNeedsNoShutdown(d: Daemon, step: Step, how: Rendering)
    requires WorkingStep(step) && d.runtime.candidates == map[]
    ensures var after := Next(d, step, how);
            after.shutdownRequested == d.shutdownRequested && after.runtime.candidates == map[]
  {
    hide Executed;
    hide ProposalFor;
    hide Interfered;
    hide RollbacksWork;
    match step
    case Serve(f, request, s) =>
      PreparingIsHeartbeats(d, f, request, s);
      var x := ProposalFor(d, f, request, s);
      if x.Proposed? {
        ExecutedNeedsNoShutdown(x.daemon, x.fence, x.plan, x.registrations, s, how);
      }
    case Meanwhile(e) => InterferenceIsHeartbeats(d, NOBODYS_FENCE, [e], false);
  }

  lemma {:induction false} RunNeedsNoShutdown(d: Daemon, steps: seq<Step>, how: Rendering)
    requires (forall step | step in steps :: WorkingStep(step)) && d.runtime.candidates == map[]
    ensures var after := Run(d, steps, how);
            after.shutdownRequested == d.shutdownRequested && after.runtime.candidates == map[]
    decreases |steps|
  {
    hide Next;
    if steps != [] {
      NextNeedsNoShutdown(d, steps[0], how);
      RunNeedsNoShutdown(Next(d, steps[0], how), steps[1..], how);
    }
  }

  /**
   Served equals published, by the inputs alone. If in every schedule of a run the calls of a
   rollback can succeed, whatever else fails or interferes, then shutdown is never requested, no
   staged file is left behind, and what is served is what is published.
   */
  lemma WorkingRollbacksServe(table: Option<Table>, clock: int, steps: seq<Step>, how: Rendering)
    requires forall step | step in steps :: WorkingStep(step)
    ensures var d := Run(Started(table, clock), steps, how);
            && !d.shutdownRequested && d.runtime.candidates == map[]
            && Serves(d.registrations, d.plan, d.runtime, how)
  {
    hide Next;
    hide Serves;
    RunNeedsNoShutdown(Started(table, clock), steps, how);
    ServedEqualsPublished(table, clock, steps, how);
  }
}
