/**
 The worker of a mutation carries out a request. Whatever the request and its schedule, the worker
 of `MutationSupervision` has steps that end as the request does: with its answer, its fence and its
 lifecycle, and with a publication exactly when the request was accepted.
 */
module MutationWorkers {
  import opened Wrappers
  import opened Registrations
  import opened DomainOwnership
  import opened Coordinator
  import opened OperationFences
  import opened RuntimeReceipts
  import opened DesiredState
  import opened DaemonTransactions
  import opened DaemonRequests
  import opened DaemonEffects
  import Supervision = MutationSupervision

  /** The supervision of a worker that notices its cancellation, before any reply. */
  function Supervised(d: Daemon, f: Fence, worker: Supervision.Worker, published: nat): Supervision.Mutation {
    Supervision.Mutation(d.lifecycle, f, worker, Supervision.Racing, published, [], false, false, true, None)
  }

  /** The worker's own steps, its cancellation and the drain: nothing that the supervisor does. */
  ghost predicate OnlyTheWorker(events: seq<Supervision.Event>) {
    forall e | e in events :: e.ByWorker? || e.BeginDrain? || e.CancelMutations?
  }

  ghost predicate Reaches(w: Supervision.Mutation, v: Supervision.Mutation) {
    exists events :: OnlyTheWorker(events) && Supervision.Run(w, events) == v
  }

  lemma {:induction false} RunConcat(w: Supervision.Mutation, a: seq<Supervision.Event>, b: seq<Supervision.Event>)
    ensures Supervision.Run(w, a + b) == Supervision.Run(Supervision.Run(w, a), b)
    decreases |a|
  {
    hide Supervision.Step;
    if a == [] {
      assert a + b == b;
    } else {
      assert (a + b)[1..] == a[1..] + b;
      RunConcat(Supervision.Step(w, a[0]), a[1..], b);
    }
  }

  lemma ReachesItself(w: Supervision.Mutation)
    ensures Reaches(w, w)
  {
    assert OnlyTheWorker([]) && Supervision.Run(w, []) == w;
  }

  lemma ReachesByEvent(w: Supervision.Mutation, e: Supervision.Event)
    requires e.ByWorker? || e.BeginDrain? || e.CancelMutations?
    ensures Reaches(w, Supervision.Step(w, e))
  {
    hide Supervision.Step;
    assert OnlyTheWorker([e]) && [e][1..] == [];
    assert Supervision.Run(w, [e]) == Supervision.Run(Supervision.Step(w, e), []);
  }

  lemma ReachesByStep(w: Supervision.Mutation, step: Supervision.WorkerStep)
    ensures Reaches(w, Supervision.WorkerStepped(w, step))
  {
    ReachesByEvent(w, Supervision.ByWorker(step));
  }

  lemma ReachesFurther(w: Supervision.Mutation, v: Supervision.Mutation, u: Supervision.Mutation)
    requires Reaches(w, v) && Reaches(v, u)
    ensures Reaches(w, u)
  {
    var a :| OnlyTheWorker(a) && Supervision.Run(w, a) == v;
    var b :| OnlyTheWorker(b) && Supervision.Run(v, b) == u;
    RunConcat(w, a, b);
    assert OnlyTheWorker(a + b);
  }

  // ---------------------------------------------------------------- interference and rollback

  lemma DisturbanceReaches(d: Daemon, f: Fence, e: EnvEvent, locked: bool, worker: Supervision.Worker)
    requires Supervision.Alive(worker)
    ensures var (d1, f1) := Disturbed(d, f, e, locked);
            Reaches(Supervised(d, f, worker, 0), Supervised(d1, f1, worker, 0))
  {
    hide Reaches;
    var w := Supervised(d, f, worker, 0);
    match e
    case Heartbeat(_, _, _) => ReachesItself(w);
    case Revoke => ReachesByStep(w, Supervision.NoticeCancellation);
    case BeginDrain => ReachesByEvent(w, Supervision.BeginDrain);
  }

  lemma {:induction false} InterferenceReaches(d: Daemon, f: Fence, es: seq<EnvEvent>, locked: bool,
                                               worker: Supervision.Worker)
    requires Supervision.Alive(worker)
    ensures var (d1, f1) := Interfered(d, f, es, locked);
            Reaches(Supervised(d, f, worker, 0), Supervised(d1, f1, worker, 0))
    decreases |es|
  {
    hide Reaches;
    hide Disturbed;
    var w := Supervised(d, f, worker, 0);
    if es == [] {
      ReachesItself(w);
    } else {
      var (d1, f1) := Disturbed(d, f, es[0], locked);
      DisturbanceReaches(d, f, es[0], locked, worker);
      InterferenceReaches(d1, f1, es[1..], locked, worker);
      var (d2, f2) := Interfered(d, f, es, locked);
      ReachesFurther(w, Supervised(d1, f1, worker, 0), Supervised(d2, f2, worker, 0));
    }
  }

  /**
   Rolling back, with whatever goes on meanwhile and whether or not it succeeds, ends with the
   outcome decided before.
   */
  lemma RollbackReaches(d: Daemon, f: Fence, receipt: Option<Receipt>, s: Schedule, outcome: Supervision.Outcome)
    ensures var (d1, f1) := RolledBackTransition(d, f, receipt, s);
            Reaches(Supervised(d, f, Supervision.RollingBack(outcome), 0),
                    Supervised(d1, f1, Supervision.Finished(outcome), 0))
  {
    hide Reaches;
    hide Interfered;
    hide RolledBack;
    var worker := Supervision.RollingBack(outcome);
    var w := Supervised(d, f, worker, 0);
    var (d1, f1) := Interfered(d, f, s.beforeRollback, false);
    var (d2, f2) := RolledBackTransition(d, f, receipt, s);
    InterferenceReaches(d, f, s.beforeRollback, false, worker);
    if d2.lifecycle != d1.lifecycle {
      ReachesByEvent(Supervised(d1, f1, worker, 0), Supervision.BeginDrain);
      ReachesFurther(w, Supervised(d1, f1, worker, 0), Supervised(d2, f2, worker, 0));
    }
    ReachesByStep(Supervised(d2, f2, worker, 0), Supervision.EndRollback);
    ReachesFurther(w, Supervised(d2, f2, worker, 0), Supervised(d2, f2, Supervision.Finished(outcome), 0));
  }

  // ---------------------------------------------------------------- the transaction

  function OutcomeOf(answer: Result<Response, CommitRejection>): Supervision.Outcome {
    match answer
    case Ok(response) => Supervision.Answered(response.Accepted?)
    case Err(rejection) => Supervision.Fenced(rejection)
  }

  /** The worker where an answer leaves it. */
  function Done(d: Daemon, f: Fence, answer: Result<Response, CommitRejection>): Supervision.Mutation {
    Supervised(d, f, Supervision.Finished(OutcomeOf(answer)), if answer == Ok(Accepted) then 1 else 0)
  }

  /** A worker that runs from `d` and `f` gets to where this handling ends. */
  ghost predicate CarriesOut(d: Daemon, f: Fence, handling: Handling) {
    Reaches(Supervised(d, f, Supervision.Running, 0), Done(handling.0, handling.1, handling.2))
  }

  lemma CarriesOnFrom(d: Daemon, f: Fence, d1: Daemon, f1: Fence, handling: Handling)
    requires Reaches(Supervised(d, f, Supervision.Running, 0), Supervised(d1, f1, Supervision.Running, 0))
    requires CarriesOut(d1, f1, handling)
    ensures CarriesOut(d, f, handling)
  {
    hide Reaches;
    ReachesFurther(Supervised(d, f, Supervision.Running, 0), Supervised(d1, f1, Supervision.Running, 0),
                   Done(handling.0, handling.1, handling.2));
  }

  lemma RefusalIsCarriedOut(d: Daemon, f: Fence, after: Daemon, why: Refusal)
    requires after.lifecycle == d.lifecycle
    ensures CarriesOut(d, f, (after, f, Ok(Rejected(why))))
  {
    hide Reaches;
    ReachesByStep(Supervised(d, f, Supervision.Running, 0), Supervision.Answer);
  }

  lemma RejectionIsCarriedOut(d: Daemon, f: Fence)
    requires Admission(d.lifecycle, f).Some?
    ensures CarriesOut(d, f, (d, f, Err(Admission(d.lifecycle, f).value)))
  {
    hide Reaches;
    hide Admission;
    ReachesByStep(Supervised(d, f, Supervision.Running, 0), Supervision.CheckFence);
  }

  /** A failed step that is rolled back, from a worker whose step leads to rolling back with this outcome. */
  lemma RolledBackIsCarriedOut(d: Daemon, f: Fence, step: Supervision.WorkerStep, failing: Daemon, left: Fence,
                               receipt: Option<Receipt>, s: Schedule, answer: Result<Response, CommitRejection>)
    requires answer != Ok(Accepted)
    requires Supervision.WorkerStepped(Supervised(d, f, Supervision.Running, 0), step) ==
             Supervised(failing, left, Supervision.RollingBack(OutcomeOf(answer)), 0)
    ensures var (d1, f1) := RolledBackTransition(failing, left, receipt, s); CarriesOut(d, f, (d1, f1, answer))
  {
    hide Reaches;
    hide RolledBackTransition;
    hide Supervision.WorkerStepped;
    var (d1, f1) := RolledBackTransition(failing, left, receipt, s);
    ReachesByStep(Supervised(d, f, Supervision.Running, 0), step);
    RollbackReaches(failing, left, receipt, s, OutcomeOf(answer));
    ReachesFurther(Supervised(d, f, Supervision.Running, 0),
                   Supervised(failing, left, Supervision.RollingBack(OutcomeOf(answer)), 0), Done(d1, f1, answer));
  }

  lemma TransitionIsCarriedOut(d: Daemon, f: Fence, p: Plan, regs: Registry, s: Schedule, how: Rendering)
    ensures var a := AppliedTransition(d, f, p, regs, s, how);
            && (a.failure.None? ==> Reaches(Supervised(d, f, Supervision.Running, 0),
                                            Supervised(a.daemon, a.fence, Supervision.Running, 0)))
            && (a.failure.Some? ==> CarriesOut(d, f, (a.daemon, a.fence, AnswerTo(a.failure))))
  {
    hide Reaches;
    hide CarriesOut;
    hide Interfered;
    hide RolledBackTransition;
    hide BegunTransition;
    hide FinishedTransition;
    hide BegunApply;
    hide Admission;
    hide Values;
    var (d1, f1) := Interfered(d, f, s.beforeTransition, false);
    InterferenceReaches(d, f, s.beforeTransition, false, Supervision.Running);
    var a := AppliedTransition(d, f, p, regs, s, how);
    var (p1, action) := BegunApply(p, Values(regs), s.attemptedAt, how);
    if !action.Current? {
      var (rt, receipt) := BegunTransition(d1.runtime, action, s.begin);
      if a.failure.Some? {
        if Admission(d1.lifecycle, f1).Some? {
          RejectionIsCarriedOut(d1, f1);
        } else if receipt.None? {
          RefusalIsCarriedOut(d1, f1, d1.(runtime := rt), RuntimeRejected);
        } else {
          RolledBackIsCarriedOut(d1, f1, Supervision.RollBack, d1.(runtime := rt), f1, receipt, s, AnswerTo(a.failure));
        }
        CarriesOnFrom(d, f, d1, f1, (a.daemon, a.fence, AnswerTo(a.failure)));
      }
    }
  }

  /** With the guard taken the worker publishes, or drops the guard and rolls back. */
  lemma GuardedIsCarriedOut(d: Daemon, f: Fence, p: Plan, merged: Registry, receipt: Option<Receipt>, s: Schedule)
    requires f.permit.Committing?
    ensures var (after, f1, failure) := PublishedUnderGuard(d, f, p, merged, receipt, s);
            Reaches(Supervised(d, f, Supervision.Guarded, 0), Done(after, f1, AnswerTo(failure)))
  {
    hide Reaches;
    hide Interfered;
    hide RolledBackTransition;
    hide AcceptedTransition;
    hide PersistedTable;
    var w := Supervised(d, f, Supervision.Guarded, 0);
    var (d1, f1) := Interfered(d, f, s.duringPublish, true);
    InterferenceReaches(d, f, s.duringPublish, true, Supervision.Guarded);
    var v := Supervised(d1, f1, Supervision.Guarded, 0);
    var (rt, after, ok) := AcceptedTransition(d1.runtime, receipt, s.accept);
    var d2 := d1.(runtime := rt);
    var (end, left, failure) := PublishedUnderGuard(d, f, p, merged, receipt, s);
    if failure.None? {
      ReachesByStep(v, Supervision.CommitGuard(true));
      var u := Supervised(end, left, Supervision.Returning(true), 1);
      ReachesByStep(u, Supervision.Return);
      ReachesFurther(v, u, Done(end, left, AnswerTo(failure)));
    } else {
      ReachesByStep(v, Supervision.DropGuard);
      var outcome := Supervision.Answered(false);
      var u := Supervised(d2, DroppingGuard(f1), Supervision.RollingBack(outcome), 0);
      RollbackReaches(d2, DroppingGuard(f1), after, s, outcome);
      ReachesFurther(v, u, Done(end, left, AnswerTo(failure)));
    }
    ReachesFurther(w, v, Done(end, left, AnswerTo(failure)));
  }

  lemma PublishingIsCarriedOut(d: Daemon, f: Fence, p: Plan, regs: Registry, receipt: Option<Receipt>, s: Schedule)
    ensures var (after, f1, failure) := Published(d, f, p, regs, receipt, s);
            CarriesOut(d, f, (after, f1, AnswerTo(failure)))
  {
    hide Reaches;
    hide Interfered;
    hide RolledBackTransition;
    hide PublishedUnderGuard;
    hide Merged;
    var (d1, f1) := Interfered(d, f, s.beforePublish, false);
    InterferenceReaches(d, f, s.beforePublish, false, Supervision.Running);
    var (after, left, failure) := Published(d, f, p, regs, receipt, s);
    if Admission(d1.lifecycle, f1).Some? {
      RolledBackIsCarriedOut(d1, f1, Supervision.TakeGuard, d1, f1, receipt, s, AnswerTo(failure));
    } else {
      var f2 := f1.(permit := Committing);
      ReachesByStep(Supervised(d1, f1, Supervision.Running, 0), Supervision.TakeGuard);
      GuardedIsCarriedOut(d1, f2, p, Merged(regs, d1.registrations), receipt, s);
      ReachesFurther(Supervised(d1, f1, Supervision.Running, 0), Supervised(d1, f2, Supervision.Guarded, 0),
                     Done(after, left, AnswerTo(failure)));
    }
    CarriesOnFrom(d, f, d1, f1, (after, left, AnswerTo(failure)));
  }

  lemma ExecutedIsCarriedOut(d: Daemon, f: Fence, p: Plan, regs: Registry, s: Schedule, how: Rendering)
    ensures CarriesOut(d, f, Transacted(d, f, p, regs, s, how))
  {
    hide CarriesOut;
    hide AppliedTransition;
    hide Published;
    TransitionIsCarriedOut(d, f, p, regs, s, how);
    var a := AppliedTransition(d, f, p, regs, s, how);
    if a.failure.None? {
      PublishingIsCarriedOut(a.daemon, a.fence, a.plan, regs, a.receipt, s);
      var (after, f1, failure) := Published(a.daemon, a.fence, a.plan, regs, a.receipt, s);
      CarriesOnFrom(d, f, a.daemon, a.fence, (after, f1, AnswerTo(failure)));
    }
  }

  // ---------------------------------------------------------------- the requests

  /** Where a request stands before its transaction, the worker can stand too. */
  ghost predicate Prepares(d: Daemon, f: Fence, x: Preparation) {
    && (x.Settled? ==> CarriesOut(d, f, (x.daemon, x.fence, x.answer)))
    && (x.Proposed? ==> Reaches(Supervised(d, f, Supervision.Running, 0),
                                Supervised(x.daemon, x.fence, Supervision.Running, 0)))
  }

  lemma PreparesFrom(d: Daemon, f: Fence, d1: Daemon, f1: Fence, x: Preparation)
    requires Reaches(Supervised(d, f, Supervision.Running, 0), Supervised(d1, f1, Supervision.Running, 0))
    requires Prepares(d1, f1, x)
    ensures Prepares(d, f, x)
  {
    hide Reaches;
    hide CarriesOut;
    if x.Settled? {
      CarriesOnFrom(d, f, d1, f1, (x.daemon, x.fence, x.answer));
    } else {
      ReachesFurther(Supervised(d, f, Supervision.Running, 0), Supervised(d1, f1, Supervision.Running, 0),
                     Supervised(x.daemon, x.fence, Supervision.Running, 0));
    }
  }

  lemma RefusalIsPrepared(d: Daemon, f: Fence, why: Refusal)
    ensures Prepares(d, f, Settled(d, f, Ok(Rejected(why))))
  {
    hide CarriesOut;
    RefusalIsCarriedOut(d, f, d, why);
  }

  lemma RejectionIsPrepared(d: Daemon, f: Fence)
    ensures Admission(d.lifecycle, f).Some? ==> Prepares(d, f, Settled(d, f, Err(Admission(d.lifecycle, f).value)))
  {
    hide CarriesOut;
    hide Admission;
    if Admission(d.lifecycle, f).Some? {
      RejectionIsCarriedOut(d, f);
    }
  }

  lemma CheckedIsPrepared(d: Daemon, f: Fence, p: Plan, regs: Registry, id: string, check: bool)
    ensures Prepares(d, f, Checked(d, f, p, regs, id, check)) && Checked(d, f, p, regs, id, check).daemon == d
  {
    hide CarriesOut;
    hide Reaches;
    hide ActiveDomainOwnershipConflict;
    ReachesItself(Supervised(d, f, Supervision.Running, 0));
    var conflict := if check then ActiveDomainOwnershipConflict(regs, id) else None;
    if conflict.Some? {
      RefusalIsCarriedOut(d, f, d, DomainTaken(conflict.value));
    }
  }

  lemma RegisterIsPrepared(d: Daemon, f: Fence, r: Registration, adapted: Adapted, s: Schedule)
    ensures Prepares(d, f, RegisterProposal(d, f, r, adapted, s))
  {
    hide Prepares;
    hide Reaches;
    hide Checked;
    hide Interfered;
    hide CommittedPrepared;
    hide Stamped;
    hide OwnerIsValid;
    hide HasDifferentOwner;
    RefusalIsPrepared(d, f, InvalidOwner);
    RefusalIsPrepared(d, f, ForeignOwner);
    if OwnerIsValid(r) && !HasDifferentOwner(d.registrations, r) {
      var (d1, f1) := Interfered(d, f, s.beforeClone, false);
      InterferenceReaches(d, f, s.beforeClone, false, Supervision.Running);
      RefusalIsPrepared(d1, f1, ForeignOwner);
      RefusalIsPrepared(d1, f1, StorageRejected);
      var prepared := Prepared(r.(domains := adapted.domains), adapted.routes, adapted.diagnostics);
      var plan := CommittedPrepared(d1.plan, r.configPath, prepared, s.preparedAt);
      var d2 := Ticked(d1, s.preparedAt);
      CheckedIsPrepared(d2, f1, plan, d2.registrations[r.id := Stamped(d2, r, adapted)], r.id, true);
      assert Supervised(d2, f1, Supervision.Running, 0) == Supervised(d1, f1, Supervision.Running, 0);
      ReachesItself(Supervised(d1, f1, Supervision.Running, 0));
      var x := RegisterProposal(d, f, r, adapted, s);
      PreparesFrom(d, f, if x.daemon == d1 then d1 else d2, f1, x);
    }
  }

  lemma HeartbeatIsPrepared(d: Daemon, f: Fence, id: string, nonce: string, now: int, s: Schedule)
    ensures Prepares(d, f, HeartbeatProposal(d, f, id, nonce, now, s))
  {
    hide Reaches;
    hide Interfered;
    var (d1, f1) := Interfered(d, f, s.beforeClone, false);
    InterferenceReaches(d, f, s.beforeClone, false, Supervision.Running);
    RejectionIsPrepared(d1, f1);
    var x := HeartbeatProposal(d, f, id, nonce, now, s);
    if Admission(d1.lifecycle, f1).None? {
      var found := OwnedBy(d1.registrations, id, nonce);
      var w := Supervised(d1, f1, Supervision.Running, 0);
      var v := Supervision.WorkerStepped(w, Supervision.TakeGuard);
      var u := Supervision.WorkerStepped(v, Supervision.CommitGuard(found));
      ReachesByStep(w, Supervision.TakeGuard);
      ReachesByStep(v, Supervision.CommitGuard(found));
      ReachesByStep(u, Supervision.Return);
      ReachesFurther(w, v, u);
      ReachesFurther(w, u, Done(x.daemon, x.fence, x.answer));
    }
    PreparesFrom(d, f, d1, f1, x);
  }

  lemma RequestsArePrepared(d: Daemon, f: Fence, request: Request, s: Schedule)
    ensures Prepares(d, f, ProposalFor(d, f, request, s))
  {
    hide Prepares;
    hide Reaches;
    hide Checked;
    hide Interfered;
    hide Admission;
    hide WithDomain;
    var (d1, f1) := Interfered(d, f, s.beforeClone, false);
    InterferenceReaches(d, f, s.beforeClone, false, Supervision.Running);
    RejectionIsPrepared(d1, f1);
    RefusalIsPrepared(d1, f1, NotFound);
    var x := ProposalFor(d, f, request, s);
    match request
    case Register(r, adapted) => RegisterIsPrepared(d, f, r, adapted, s);
    case Unregister(id, nonce) =>
      ProposingIsPrepared(d1, f1, d1.plan, d1.registrations - {id});
      PreparesFrom(d, f, d1, f1, x);
    case Heartbeat(id, nonce, now) => HeartbeatIsPrepared(d, f, id, nonce, now, s);
    case SetEntrypointEnabled(id, onlyNonce, enabled) =>
      if id in d1.registrations {
        var changed := d1.registrations[id].(activation := ActivationState.FromEnabled(enabled));
        CheckedIsPrepared(d1, f1, d1.plan, d1.registrations[id := changed], id, enabled);
      }
      PreparesFrom(d, f, d1, f1, x);
    case SetDomainEnabled(id, key, enabled) =>
      if id in d1.registrations && WithDomain(d1.registrations[id].domains, key, enabled).Some? {
        var changed := d1.registrations[id].(domains := WithDomain(d1.registrations[id].domains, key, enabled).value);
        CheckedIsPrepared(d1, f1, d1.plan, d1.registrations[id := changed], id, enabled);
      }
      PreparesFrom(d, f, d1, f1, x);
  }

  lemma ProposingIsPrepared(d: Daemon, f: Fence, p: Plan, regs: Registry)
    ensures Prepares(d, f, Proposed(d, f, p, regs))
  {
    hide Reaches;
    ReachesItself(Supervised(d, f, Supervision.Running, 0));
  }

  lemma HandlingIsCarriedOut(d: Daemon, f: Fence, request: Request, s: Schedule, how: Rendering)
    ensures CarriesOut(d, f, Handled(d, f, request, s, how))
  {
    hide CarriesOut;
    hide Reaches;
    hide ProposalFor;
    hide Transacted;
    RequestsArePrepared(d, f, request, s);
    var x := ProposalFor(d, f, request, s);
    if x.Proposed? {
      ExecutedIsCarriedOut(x.daemon, x.fence, x.plan, x.registrations, s, how);
      CarriesOnFrom(d, f, x.daemon, x.fence, Handled(d, f, request, s, how));
    }
  }

  // ---------------------------------------------------------------- what the client is told

  /** A mutation whose worker has just been spawned under an active fence. */
  function Spawned(d: Daemon, f: Fence): Supervision.Mutation {
    Supervision.Mutation(d.lifecycle, f, Supervision.Running, Supervision.Racing, 0, [], false, false, false, None)
  }

  /**
   The worker's publications are the daemon's. For every daemon, active fence, request and schedule
   the worker has a run, with revocations and the drain where the schedule has them, that ends with
   the outcome of the request's answer, with its fence and lifecycle, and with a publication exactly
   when the answer is an acceptance.
   */
  lemma WorkersCarryOutRequests(d: Daemon, f: Fence, request: Request, s: Schedule, how: Rendering)
    requires f.permit.Active?
    ensures var (after, f1, answer) := Handled(d, f, request, s, how);
            exists events :: OnlyTheWorker(events) &&
              var w := Supervision.Run(Spawned(d, f), events);
              && w.worker == Supervision.Finished(OutcomeOf(answer))
              && w.fence == f1 && w.lifecycle == after.lifecycle
              && w.published == (if answer == Ok(Accepted) then 1 else 0)
              && w.supervisor.Racing? && w.replies == [] && !w.deadlinePassed
  {
    hide Handled;
    var w := Spawned(d, f);
    ReachesByEvent(w, Supervision.CancelMutations);
    HandlingIsCarriedOut(d, f, request, s, how);
    var (after, f1, answer) := Handled(d, f, request, s, how);
    ReachesFurther(w, Supervised(d, f, Supervision.Running, 0), Done(after, f1, answer));
  }

  /**
   Whatever races what: in any run of worker, supervisor, deadline, drain and abort whose worker
   ends as the request does, the client is not misled. A reply that is an acceptance means that the
   registry has changed as asked; a timeout, a shutting-down notice or a refusal means that the
   request has left the daemon untouched.
   */
  lemma RepliesAreTrueOfTheDaemon(d: Daemon, f: Fence, request: Request, s: Schedule, how: Rendering,
                                  events: seq<Supervision.Event>)
    requires f.permit.Active?
    ensures var (after, _, answer) := Handled(d, f, request, s, how);
            var w := Supervision.Run(Spawned(d, f), events);
            w.worker == Supervision.Finished(OutcomeOf(answer)) && w.replies != [] ==>
              && (w.replies == [Supervision.Response(true)] ==>
                    HasDone(request, d.registrations, after.registrations, d.table))
              && (w.replies != [Supervision.Response(true)] ==> answer != Ok(Accepted) && Untouched(d, after))
  {
    hide Handled;
    hide HasDone;
    hide Untouched;
    Supervision.RunKeepsInv(Spawned(d, f), events);
    AcceptedHasDone(d, f, request, s, how);
    RefusedIsUntouched(d, f, request, s, how);
    var w := Supervision.Run(Spawned(d, f), events);
    assert w.replies != [] ==> w.replies == [w.replies[0]];
  }

  /**
   From there the client is told the answer, and the answer is the truth: an acceptance means that
   the registry has changed as asked, anything else that the daemon is untouched.
   */
  lemma AnswersAreToldAndTrue(d: Daemon, f: Fence, request: Request, s: Schedule, how: Rendering)
    requires f.permit.Active?
    ensures var (after, f1, answer) := Handled(d, f, request, s, how);
            && (answer.Ok? ==>
                  exists events ::
                    Supervision.Run(Spawned(d, f), events).replies == [Supervision.Response(answer.value.Accepted?)])
            && (answer == Ok(Accepted) ==> HasDone(request, d.registrations, after.registrations, d.table))
            && (answer != Ok(Accepted) ==> Untouched(d, after))
  {
    hide Handled;
    hide HasDone;
    WorkersCarryOutRequests(d, f, request, s, how);
    AcceptedHasDone(d, f, request, s, how);
    var (after, f1, answer) := Handled(d, f, request, s, how);
    HandlingIsHonest(d, f, request, s, how);
    if answer.Ok? {
      var events :| OnlyTheWorker(events) &&
        var w := Supervision.Run(Spawned(d, f), events);
        && w.worker == Supervision.Finished(OutcomeOf(answer))
        && w.supervisor.Racing? && w.replies == [] && !w.deadlinePassed;
      var w := Supervision.Run(Spawned(d, f), events);
      var told := [Supervision.BySupervisor(Supervision.SeeWorker, true)];
      RunConcat(Spawned(d, f), events, told);
      assert told[1..] == [];
      assert Supervision.Run(w, told) == Supervision.Run(Supervision.Step(w, told[0]), []);
      assert Supervision.Run(Spawned(d, f), events + told).replies == [Supervision.Response(answer.value.Accepted?)];
    }
  }
}
