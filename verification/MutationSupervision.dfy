/**
 One client mutation: a worker that publishes under a fence, and a supervisor that races it
 against the deadline, the drain, further bytes from the client and cancellation, and then
 tells the client what became of it.
 */
module MutationSupervision {
  import opened OperationFences
  import opened Wrappers

  /** How the worker's task ends: a response, a rejected commit, or a panic. */
  datatype Outcome = Answered(accepted: bool) | Fenced(rejection: CommitRejection) | Panicked

  /**
   Where the worker stands. `Guarded` holds the final-commit guard; `RollingBack` has its outcome
   and awaits the rollback of its runtime transition; `Returning` has committed.
   */
  datatype Worker =
    | Unspawned
    | Running
    | Guarded
    | RollingBack(outcome: Outcome)
    | Returning(accepted: bool)
    | Finished(outcome: Outcome)

  datatype Supervisor = Starting | Racing | Following | Awaiting | Closed(orderly: bool)

  /** A reply that carries the request's id. */
  datatype Reply = Response(accepted: bool) | OperationTimeout | ShuttingDown

  /** `closedOver` is history: the permit that the settlement which closed the supervision found. */
  datatype Mutation = Mutation(
    lifecycle: Lifecycle,
    fence: Fence,
    worker: Worker,
    supervisor: Supervisor,
    published: nat,
    replies: seq<Reply>,
    deadlinePassed: bool,
    requestDrain: bool,
    mutationsCancelled: bool,
    closedOver: Option<PermitState>)

  /** A request that has just been issued its fence. */
  const ISSUED :=
    Mutation(INITIAL_LIFECYCLE, Fence(0, PermitState.Active, false), Unspawned, Starting, 0, [], false, false, false,
             None)

  // ---------------------------------------------------------------- what the supervisor decides

  /** What a settled race asks for: a reply, waiting for the worker, or silence. */
  datatype Settlement = Send(reply: Reply) | Await | Silence

  function SettledTimeout(f: Fence): (Fence, Settlement) {
    var (next, outcome) := Revoking(f);
    (next, match outcome
           case Revoked => Send(OperationTimeout)
           case AlreadyRevoked => Silence
           case Finalized => Await)
  }

  function SettledDrain(f: Fence): (Fence, Settlement) {
    var (next, outcome) := Revoking(f);
    (next, if outcome.Finalized? then Await else Send(ShuttingDown))
  }

  /** `write_owned_mutation_result`, for a worker that answered. */
  function SettledAnswer(f: Fence, accepted: bool, deadlinePassed: bool): (Fence, Settlement) {
    if !deadlinePassed then (Completing(f), Send(Response(accepted)))
    else
      var (next, outcome) := Revoking(f);
      (next, match outcome
             case Revoked => Send(OperationTimeout)
             case AlreadyRevoked => Silence
             case Finalized => Send(Response(accepted)))
  }

  method SettleTimeout(fence: OperationFence) returns (settlement: Settlement)
    modifies fence.permit
    ensures (fence.View(), settlement) == SettledTimeout(old(fence.View()))
  {
    var outcome := fence.TryRevoke();
    match outcome {
      case Revoked => settlement := Send(OperationTimeout);
      case AlreadyRevoked => settlement := Silence;
      case Finalized => settlement := Await;
    }
  }

  method SettleDrain(fence: OperationFence) returns (settlement: Settlement)
    modifies fence.permit
    ensures (fence.View(), settlement) == SettledDrain(old(fence.View()))
  {
    var outcome := fence.TryRevoke();
    settlement := if outcome.Finalized? then Await else Send(ShuttingDown);
  }

  method WriteOwnedMutationResult(fence: OperationFence, accepted: bool, deadlinePassed: bool)
    returns (settlement: Settlement)
    modifies fence.permit
    ensures (fence.View(), settlement) == SettledAnswer(old(fence.View()), accepted, deadlinePassed)
  {
    if !deadlinePassed {
      fence.Complete();
      return Send(Response(accepted));
    }
    var outcome := fence.TryRevoke();
    match outcome {
      case Revoked => settlement := Send(OperationTimeout);
      case AlreadyRevoked => settlement := Silence;
      case Finalized => settlement := Send(Response(accepted));
    }
  }

  // ---------------------------------------------------------------- steps

  /** `CommitGuard` says whether there was something to publish: a heartbeat commits for nobody too. */
  datatype WorkerStep =
    | CheckFence
    | Answer
    | RollBack
    | TakeGuard
    | CommitGuard(found: bool)
    | DropGuard
    | EndRollback
    | Return
    | Panic
    | NoticeCancellation

  /** An arm of the supervisor's selects; `writes` says whether writing its reply succeeds. */
  datatype SupervisorStep =
    | Start(spawned: bool)
    | SeeDrain
    | SeeCancellation
    | SeeFrame
    | SeeWorker
    | SeeDeadline
    | Abort

  datatype Event =
    | ByWorker(w: WorkerStep)
    | BySupervisor(s: SupervisorStep, writes: bool)
    | BeginDrain
    | DrainRequests
    | CancelMutations
    | PassDeadline

  /** The worker's task is still there: it may panic, and it notices cancellation. */
  predicate Alive(x: Worker) {
    x.Running? || x.Guarded? || x.RollingBack? || x.Returning?
  }

  function WorkerStepped(w: Mutation, step: WorkerStep): Mutation {
    match step
    case CheckFence =>
      if w.worker.Running? && Admission(w.lifecycle, w.fence).Some?
      then w.(worker := Finished(Fenced(Admission(w.lifecycle, w.fence).value))) else w
    case Answer => if w.worker.Running? then w.(worker := Finished(Answered(false))) else w
    case RollBack => if w.worker.Running? then w.(worker := RollingBack(Answered(false))) else w
    case TakeGuard =>
      if !w.worker.Running? then w
      else if Admission(w.lifecycle, w.fence).Some? then
        w.(worker := RollingBack(Fenced(Admission(w.lifecycle, w.fence).value)))
      else w.(worker := Guarded, fence := w.fence.(permit := Committing))
    case CommitGuard(found) =>
      if !w.worker.Guarded? then w
      else w.(worker := Returning(found), fence := w.fence.(permit := PermitState.Finalized),
              published := w.published + if found then 1 else 0)
    case DropGuard =>
      if !w.worker.Guarded? then w
      else w.(worker := RollingBack(Answered(false)), fence := DroppingGuard(w.fence))
    case EndRollback => if w.worker.RollingBack? then w.(worker := Finished(w.worker.outcome)) else w
    case Return => if w.worker.Returning? then w.(worker := Finished(Answered(w.worker.accepted))) else w
    case Panic => if Alive(w.worker) then w.(worker := Finished(Panicked), fence := DroppingGuard(w.fence)) else w
    case NoticeCancellation =>
      if w.mutationsCancelled && Alive(w.worker) then w.(fence := Revoking(w.fence).0) else w
  }

  function Settle(w: Mutation, f: Fence, settlement: Settlement, writes: bool): Mutation {
    match settlement
    case Await => w.(fence := f, supervisor := Awaiting)
    case Silence => w.(fence := f, supervisor := Closed(true), closedOver := Some(w.fence.permit))
    case Send(reply) =>
      w.(fence := f, supervisor := Closed(writes), closedOver := Some(w.fence.permit),
         replies := w.replies + if writes then [reply] else [])
  }

  predicate Selecting(s: Supervisor) {
    s.Racing? || s.Following?
  }

  function WorkerSeen(w: Mutation, writes: bool): Mutation
    requires w.worker.Finished?
  {
    if !w.worker.outcome.Answered? then w.(supervisor := Closed(true))
    else if w.supervisor.Awaiting? then Settle(w, w.fence, Send(Response(w.worker.outcome.accepted)), writes)
    else
      var (f, settlement) := SettledAnswer(w.fence, w.worker.outcome.accepted, w.deadlinePassed);
      Settle(w, f, settlement, writes)
  }

  function SupervisorStepped(w: Mutation, step: SupervisorStep, writes: bool): Mutation {
    match step
    case Start(spawned) =>
      if !w.supervisor.Starting? then w
      else if spawned then w.(worker := Running, supervisor := Racing)
      else Settle(w, Revoking(w.fence).0, Send(ShuttingDown), writes)
    case SeeDrain =>
      if Selecting(w.supervisor) && w.requestDrain
      then Settle(w, SettledDrain(w.fence).0, SettledDrain(w.fence).1, writes) else w
    case SeeCancellation =>
      if Selecting(w.supervisor) && IsCancelled(w.lifecycle, w.fence) then w.(supervisor := Awaiting) else w
    case SeeFrame => if w.supervisor.Racing? then w.(supervisor := Following) else w
    case SeeWorker =>
      if w.worker.Finished? && (Selecting(w.supervisor) || w.supervisor.Awaiting?) then WorkerSeen(w, writes) else w
    case SeeDeadline =>
      if Selecting(w.supervisor) && w.deadlinePassed
      then Settle(w, SettledTimeout(w.fence).0, SettledTimeout(w.fence).1, writes) else w
    case Abort => if w.supervisor.Closed? then w else w.(supervisor := Closed(false))
  }

  function Step(w: Mutation, e: Event): Mutation {
    match e
    case ByWorker(step) => WorkerStepped(w, step)
    case BySupervisor(step, writes) => SupervisorStepped(w, step, writes)
    case BeginDrain => w.(lifecycle := Drained(w.lifecycle))
    case DrainRequests => w.(requestDrain := true)
    case CancelMutations => w.(mutationsCancelled := true)
    case PassDeadline => w.(deadlinePassed := true)
  }

  function Run(w: Mutation, events: seq<Event>): Mutation
    decreases |events|
  {
    if events == [] then w else Run(Step(w, events[0]), events[1..])
  }

  // ---------------------------------------------------------------- truthful replies

  /** What a reply claims, which no later step may make untrue. */
  ghost predicate IsTruthful(reply: Reply, w: Mutation) {
    match reply
    case Response(true) => w.published == 1
    case Response(false) => w.published == 0 && w.worker == Finished(Answered(false))
    case OperationTimeout =>
      w.published == 0 && w.deadlinePassed && w.fence.permit.Revoked? && w.closedOver == Some(PermitState.Active)
    case ShuttingDown => w.published == 0 && (w.requestDrain || w.worker.Unspawned?) && w.fence.permit.Revoked?
  }

  ghost predicate WorkerInv(w: Mutation) {
    && (w.worker.Guarded? <==> w.fence.permit.Committing?)
    && w.published <= 1
    && (w.published == 1 ==> w.fence.permit.Finalized?
                             && w.worker in {Returning(true), Finished(Answered(true)), Finished(Panicked)})
    && (w.worker in {Returning(true), Finished(Answered(true))} ==> w.published == 1)
    && (w.worker.Running? || w.worker.Unspawned? || w.worker.RollingBack? ==> !w.fence.permit.Finalized?)
    && (w.worker.RollingBack? ==> w.worker.outcome != Answered(true))
    && (w.worker.Returning? ==> w.fence.permit.Finalized?)
    && (w.worker.Unspawned? ==> w.supervisor.Starting? || w.supervisor.Closed?)
    && (w.worker.Unspawned? && w.supervisor.Closed? && |w.replies| > 0 ==> w.fence.permit.Revoked?)
    && (w.supervisor.Starting? ==> w.worker.Unspawned?)
    && (w.supervisor == Closed(true) ==> w.fence.permit.Revoked? || w.worker.Finished?)
  }

  ghost predicate Inv(w: Mutation) {
    && WorkerInv(w)
    && |w.replies| <= 1
    && (|w.replies| == 1 ==> w.supervisor.Closed? && IsTruthful(w.replies[0], w))
    && (w.published == 1 && w.supervisor == Closed(true) && w.worker != Finished(Panicked) ==>
          w.replies == [Response(true)])
    && (w.supervisor == Closed(true) && w.replies == [] ==> MayBeSilent(w))
  }

  /**
   The worker's commit was rejected or it panicked, or the deadline has passed over a fence that
   somebody else had revoked before the settlement.
   */
  ghost predicate MayBeSilent(w: Mutation) {
    || (w.worker.Finished? && !w.worker.outcome.Answered?)
    || (w.deadlinePassed && w.closedOver == Some(PermitState.Revoked))
  }

  lemma WorkerKeepsInv(w: Mutation, step: WorkerStep)
    requires Inv(w)
    ensures Inv(WorkerStepped(w, step))
  {}

  lemma SettlingDrainKeepsInv(w: Mutation, writes: bool)
    requires Inv(w) && Selecting(w.supervisor) && w.requestDrain
    ensures Inv(Settle(w, SettledDrain(w.fence).0, SettledDrain(w.fence).1, writes))
  {}

  lemma SettlingTimeoutKeepsInv(w: Mutation, writes: bool)
    requires Inv(w) && Selecting(w.supervisor) && w.deadlinePassed
    ensures Inv(Settle(w, SettledTimeout(w.fence).0, SettledTimeout(w.fence).1, writes))
  {}

  lemma AwaitedAnswersKeepInv(w: Mutation, writes: bool)
    requires Inv(w) && w.worker.Finished? && w.supervisor.Awaiting?
    ensures Inv(WorkerSeen(w, writes))
  {}

  lemma RacedAnswersKeepInv(w: Mutation, writes: bool)
    requires Inv(w) && w.worker.Finished? && Selecting(w.supervisor)
    ensures Inv(WorkerSeen(w, writes))
  {}

  lemma SeeingTheWorkerKeepsInv(w: Mutation, writes: bool)
    requires Inv(w) && w.worker.Finished? && (Selecting(w.supervisor) || w.supervisor.Awaiting?)
    ensures Inv(WorkerSeen(w, writes))
  {
    hide WorkerSeen;
    hide Inv;
    if w.supervisor.Awaiting? {
      AwaitedAnswersKeepInv(w, writes);
    } else {
      RacedAnswersKeepInv(w, writes);
    }
  }

  lemma SupervisorKeepsInv(w: Mutation, step: SupervisorStep, writes: bool)
    requires Inv(w)
    ensures Inv(SupervisorStepped(w, step, writes))
  {
    hide WorkerSeen;
    hide SettledDrain;
    hide SettledTimeout;
    if Selecting(w.supervisor) && w.requestDrain {
      SettlingDrainKeepsInv(w, writes);
    }
    if Selecting(w.supervisor) && w.deadlinePassed {
      SettlingTimeoutKeepsInv(w, writes);
    }
    if w.worker.Finished? && (Selecting(w.supervisor) || w.supervisor.Awaiting?) {
      SeeingTheWorkerKeepsInv(w, writes);
    }
  }

  lemma StepKeepsInv(w: Mutation, e: Event)
    requires Inv(w)
    ensures Inv(Step(w, e))
  {
    hide WorkerStepped;
    hide SupervisorStepped;
    match e
    case ByWorker(step) => WorkerKeepsInv(w, step);
    case BySupervisor(step, writes) => SupervisorKeepsInv(w, step, writes);
    case _ =>
  }

  lemma {:induction false} RunKeepsInv(w: Mutation, events: seq<Event>)
    requires Inv(w)
    ensures Inv(Run(w, events))
    decreases |events|
  {
    hide Step;
    hide Inv;
    if events != [] {
      StepKeepsInv(w, events[0]);
      RunKeepsInv(Step(w, events[0]), events[1..]);
    }
  }

  lemma SettlingKeepsReplies(w: Mutation, f: Fence, settlement: Settlement, writes: bool)
    ensures w.replies <= Settle(w, f, settlement, writes).replies
  {}

  lemma SupervisorKeepsReplies(w: Mutation, step: SupervisorStep, writes: bool)
    ensures w.replies <= SupervisorStepped(w, step, writes).replies
  {
    hide Settle;
    hide SettledDrain;
    hide SettledTimeout;
    hide SettledAnswer;
    SettlingKeepsReplies(w, Revoking(w.fence).0, Send(ShuttingDown), writes);
    SettlingKeepsReplies(w, SettledDrain(w.fence).0, SettledDrain(w.fence).1, writes);
    SettlingKeepsReplies(w, SettledTimeout(w.fence).0, SettledTimeout(w.fence).1, writes);
    if w.worker.Finished? && w.worker.outcome.Answered? {
      var answer := SettledAnswer(w.fence, w.worker.outcome.accepted, w.deadlinePassed);
      SettlingKeepsReplies(w, answer.0, answer.1, writes);
      SettlingKeepsReplies(w, w.fence, Send(Response(w.worker.outcome.accepted)), writes);
    }
  }

  lemma StepKeepsReplies(w: Mutation, e: Event)
    ensures w.replies <= Step(w, e).replies
  {
    hide SupervisorStepped;
    if e.BySupervisor? {
      SupervisorKeepsReplies(w, e.s, e.writes);
    }
  }

  lemma {:induction false} RepliesStay(w: Mutation, events: seq<Event>)
    ensures w.replies <= Run(w, events).replies
    decreases |events|
  {
    hide Step;
    if events != [] {
      StepKeepsReplies(w, events[0]);
      RepliesStay(Step(w, events[0]), events[1..]);
    }
  }

  /**
   Replies are truthful, in every interleaving. At most one reply carries the request's id. If it
   is a timeout or a shutting-down notice, or a response that is not an acceptance, the mutation
   has not been published and never will be; if it is an acceptance, it has been published exactly
   once and that stays so.
   */
  lemma RepliesAreTruthful(before: seq<Event>, after: seq<Event>)
    ensures var now := Run(ISSUED, before);
            var later := Run(now, after);
            && |later.replies| <= 1
            && (now.replies != [] ==> later.replies == now.replies
                                      && later.published == if now.replies[0] == Response(true) then 1 else 0)
  {
    var now := Run(ISSUED, before);
    RunKeepsInv(ISSUED, before);
    RunKeepsInv(now, after);
    RepliesStay(now, after);
  }

  /**
   A refusal has its reason: a timeout is sent only after the deadline, by a settlement that has
   itself revoked the fence, and a shutting-down notice only on drain or before a worker exists,
   over a revoked fence; and a request is left unanswered by an orderly supervision only when its
   commit was rejected, its worker panicked, or the deadline passed over a fence that somebody else
   had revoked before.
   */
  lemma RefusalsHaveReasons(events: seq<Event>)
    ensures var w := Run(ISSUED, events);
            && (w.replies == [OperationTimeout] ==>
                  w.deadlinePassed && w.fence.permit.Revoked? && w.closedOver == Some(PermitState.Active))
            && (w.replies == [ShuttingDown] ==> (w.requestDrain || w.worker.Unspawned?) && w.fence.permit.Revoked?)
            && (w.supervisor == Closed(true) && w.replies == [] ==> MayBeSilent(w))
  {
    RunKeepsInv(ISSUED, events);
  }

  /**
   A published mutation is never denied: unless the connection is aborted, the reply cannot be
   written or the worker panics after it has published, a request whose supervision ends after
   publication has been answered with acceptance, however late, drained or cancelled it was.
   */
  lemma PublishedIsReported(events: seq<Event>)
    ensures var w := Run(ISSUED, events);
            && w.published <= 1
            && (w.published == 1 && w.supervisor == Closed(true) && w.worker != Finished(Panicked) ==>
                  w.replies == [Response(true)])
            && (w.published == 1 && w.replies != [] ==> w.replies == [Response(true)])
  {
    RunKeepsInv(ISSUED, events);
    var w := Run(ISSUED, events);
    assert w.replies == [] || w.replies == [w.replies[0]];
  }

  // ---------------------------------------------------------------- every race is settled

  /** The client has this reply and the supervision is over. */
  ghost predicate IsTold(w: Mutation, reply: Reply) {
    w.replies == [reply] && w.supervisor == Closed(true)
  }

  ghost predicate IsLeftSilent(w: Mutation) {
    w.replies == [] && w.supervisor == Closed(true)
  }

  ghost predicate IsAwaited(w: Mutation) {
    w.replies == [] && w.supervisor.Awaiting?
  }

  lemma OpenMeansUnanswered(events: seq<Event>)
    ensures var w := Run(ISSUED, events); Inv(w) && (!w.supervisor.Closed? ==> w.replies == [])
  {
    RunKeepsInv(ISSUED, events);
  }

  /**
   A client whose mutation has timed out is told so. At every reachable point of a race past its
   deadline, seeing the deadline sends the timeout if the permit is still active, which it then
   revokes; waits for the worker if the final commit has begun; and is silent only over a permit
   revoked before.
   */
  lemma DeadlinesAreSettled(events: seq<Event>)
    ensures var w := Run(ISSUED, events);
            var next := Step(w, BySupervisor(SeeDeadline, true));
            Selecting(w.supervisor) && w.deadlinePassed ==>
              && (w.fence.permit.Active? ==>
                    IsTold(next, OperationTimeout) && next.fence.permit.Revoked? && next.fence.token)
              && (w.fence.permit.Committing? || w.fence.permit.Finalized? ==> IsAwaited(next) && next.fence == w.fence)
              && (w.fence.permit.Revoked? ==> IsLeftSilent(next) && next.fence == w.fence)
  {
    OpenMeansUnanswered(events);
  }

  /** On drain the client is told of it, unless the final commit has begun: then the worker is awaited. */
  lemma DrainsAreSettled(events: seq<Event>)
    ensures var w := Run(ISSUED, events);
            var next := Step(w, BySupervisor(SeeDrain, true));
            Selecting(w.supervisor) && w.requestDrain ==>
              && (w.fence.permit.Active? || w.fence.permit.Revoked? ==>
                    IsTold(next, ShuttingDown) && next.fence.permit.Revoked?)
              && (w.fence.permit.Committing? || w.fence.permit.Finalized? ==> IsAwaited(next) && next.fence == w.fence)
  {
    OpenMeansUnanswered(events);
  }

  /**
   A worker's answer reaches the client: in time, or once the worker is awaited, as it is; late, as
   it is if the fence is finalized, as a timeout if the permit is still active, and not at all if it
   was revoked before. An answer sent in time leaves no permit active; a worker without an answer
   leaves the client without a reply.
   */
  lemma AnswersAreSettled(events: seq<Event>)
    ensures var w := Run(ISSUED, events);
            var next := Step(w, BySupervisor(SeeWorker, true));
            w.worker.Finished? && (Selecting(w.supervisor) || w.supervisor.Awaiting?) ==>
              match w.worker.outcome
              case Answered(accepted) =>
                && (w.supervisor.Awaiting? || !w.deadlinePassed || w.fence.permit.Finalized? ==>
                      IsTold(next, Response(accepted)))
                && (Selecting(w.supervisor) && !w.deadlinePassed ==> !next.fence.permit.Active?)
                && (Selecting(w.supervisor) && w.deadlinePassed && w.fence.permit.Active? ==>
                      IsTold(next, OperationTimeout) && next.fence.permit.Revoked?)
                && (Selecting(w.supervisor) && w.deadlinePassed && w.fence.permit.Revoked? ==> IsLeftSilent(next))
              case _ => IsLeftSilent(next)
  {
    OpenMeansUnanswered(events);
  }

  /**
   Before a worker exists a refused start is told to the client over a revoked fence, and a
   successful one starts the race; a cancelled fence makes the supervision wait for its worker, and
   bytes that follow the request change nothing for it.
   */
  lemma StartsAndCancellationsAreSettled(events: seq<Event>)
    ensures var w := Run(ISSUED, events);
            && (w.supervisor.Starting? ==>
                  var refused := Step(w, BySupervisor(Start(false), true));
                  var started := Step(w, BySupervisor(Start(true), true));
                  && IsTold(refused, ShuttingDown) && refused.fence.permit.Revoked? && refused.worker.Unspawned?
                  && started.worker.Running? && started.supervisor.Racing? && started.fence == w.fence)
            && (Selecting(w.supervisor) && IsCancelled(w.lifecycle, w.fence) ==>
                  IsAwaited(Step(w, BySupervisor(SeeCancellation, true))))
            && (w.supervisor.Racing? ==> Step(w, BySupervisor(SeeFrame, true)) == w.(supervisor := Following))
  {
    OpenMeansUnanswered(events);
    RunKeepsUnspawnedOpen(ISSUED, events);
  }

  lemma NobodyStartsAgain(w: Mutation, step: SupervisorStep, writes: bool)
    ensures var next := SupervisorStepped(w, step, writes); next.supervisor.Starting? ==> next == w
  {
    hide SettledDrain;
    hide SettledTimeout;
    hide SettledAnswer;
  }

  lemma StepKeepsUnspawnedOpen(w: Mutation, e: Event)
    requires w.supervisor.Starting? ==> w.worker.Unspawned? && w.fence.permit.Active?
    ensures var next := Step(w, e); next.supervisor.Starting? ==> next.worker.Unspawned? && next.fence.permit.Active?
  {
    hide SupervisorStepped;
    if e.BySupervisor? {
      NobodyStartsAgain(w, e.s, e.writes);
    }
  }

  /** Before a worker exists nobody has touched the permit. */
  lemma {:induction false} RunKeepsUnspawnedOpen(w: Mutation, events: seq<Event>)
    requires w.supervisor.Starting? ==> w.worker.Unspawned? && w.fence.permit.Active?
    ensures var end := Run(w, events); end.supervisor.Starting? ==> end.worker.Unspawned? && end.fence.permit.Active?
    decreases |events|
  {
    hide Step;
    if events != [] {
      StepKeepsUnspawnedOpen(w, events[0]);
      RunKeepsUnspawnedOpen(Step(w, events[0]), events[1..]);
    }
  }

  /**
   The worker follows its fence. At every reachable point it takes the guard exactly if it runs, the
   permit is active and the drain has not begun; otherwise it rolls back what it has begun with the
   rejection it was told, the drain before a revocation. A cancelled worker revokes an active permit
   and leaves any other as it is.
   */
  lemma WorkersFollowTheFence(events: seq<Event>)
    ensures var w := Run(ISSUED, events);
            var guarded, checked := Step(w, ByWorker(TakeGuard)), Step(w, ByWorker(CheckFence));
            var draining, open := w.lifecycle.phase.Draining?, w.fence.permit.Active?;
            var told := if draining then StaleEpoch else CommitRejection.Revoked;
            && (w.worker.Running? && !draining && open ==>
                  guarded.worker.Guarded? && guarded.fence.permit.Committing? && checked == w)
            && (w.worker.Running? && (draining || !open) ==>
                  && guarded.worker == RollingBack(Fenced(told)) && guarded.fence == w.fence
                  && checked.worker == Finished(Fenced(told)) && checked.fence == w.fence)
            && (w.mutationsCancelled && Alive(w.worker) ==>
                  var noticed := Step(w, ByWorker(NoticeCancellation));
                  && noticed.worker == w.worker && noticed.fence.permit ==
                     (if open then PermitState.Revoked else w.fence.permit)
                  && (open ==> noticed.fence.token))
  {
    RunKeepsEpochs(ISSUED, events);
  }

  /** The epoch of the fence is the one it was issued in, and only the drain leaves it behind. */
  lemma {:induction false} RunKeepsEpochs(w: Mutation, events: seq<Event>)
    requires w.fence.epoch == 0 && w.lifecycle in {INITIAL_LIFECYCLE, Drained(INITIAL_LIFECYCLE)}
    ensures var end := Run(w, events);
            end.fence.epoch == 0 && end.lifecycle in {INITIAL_LIFECYCLE, Drained(INITIAL_LIFECYCLE)}
    decreases |events|
  {
    hide Step;
    if events != [] {
      StepKeepsEpochs(w, events[0]);
      RunKeepsEpochs(Step(w, events[0]), events[1..]);
    }
  }

  lemma SupervisorKeepsEpochs(w: Mutation, step: SupervisorStep, writes: bool)
    ensures var next := SupervisorStepped(w, step, writes);
            next.fence.epoch == w.fence.epoch && next.lifecycle == w.lifecycle
  {
    hide Admission;
    hide IsCancelled;
  }

  lemma StepKeepsEpochs(w: Mutation, e: Event)
    ensures var next := Step(w, e);
            next.fence.epoch == w.fence.epoch && next.lifecycle in {w.lifecycle, Drained(w.lifecycle)}
  {
    hide SupervisorStepped;
    if e.BySupervisor? {
      SupervisorKeepsEpochs(w, e.s, e.writes);
    }
  }
}
