/**
 The operation fence: one commit permit per mutation, all of them subordinate to the
 daemon's lifecycle epoch. The value-level functions say what each locked section does;
 the classes carry them out; the runs interleave any number of fences and their clones.
 */
module OperationFences {
  import opened Wrappers

  datatype CommitRejection = Revoked | StaleEpoch | Draining
  datatype LifecyclePhase = Active | Draining
  datatype PermitState = Active | Committing | Finalized | Revoked
  datatype RevokeOutcome = Revoked | AlreadyRevoked | Finalized

  datatype Lifecycle = Lifecycle(number: nat, phase: LifecyclePhase, cancelled: bool)

  /** A fence as its clones share it: the epoch it was issued in, its permit, its own token. */
  datatype Fence = Fence(epoch: nat, permit: PermitState, token: bool)

  const INITIAL_LIFECYCLE := Lifecycle(0, LifecyclePhase.Active, false)

  function IssueFrom(l: Lifecycle): Result<Fence, CommitRejection> {
    if l.phase.Draining? then Err(CommitRejection.Draining)
    else Ok(Fence(l.number, PermitState.Active, false))
  }

  function Drained(l: Lifecycle): Lifecycle {
    if l.phase.Draining? then l else Lifecycle(l.number + 1, LifecyclePhase.Draining, true)
  }

  /** The checks that `commit` and `begin_final_commit` share, in their order. */
  function Admission(l: Lifecycle, f: Fence): Option<CommitRejection> {
    if l.number != f.epoch then Some(StaleEpoch)
    else if l.phase.Draining? then Some(CommitRejection.Draining)
    else if !f.permit.Active? then Some(CommitRejection.Revoked)
    else None
  }

  function Revoking(f: Fence): (Fence, RevokeOutcome) {
    match f.permit
    case Active => (f.(permit := PermitState.Revoked, token := true), RevokeOutcome.Revoked)
    case Revoked => (f, AlreadyRevoked)
    case _ => (f, RevokeOutcome.Finalized)
  }

  function Completing(f: Fence): Fence {
    if f.permit.Active? then f.(permit := PermitState.Finalized) else f
  }

  function DroppingGuard(f: Fence): Fence {
    if f.permit.Committing? then f.(permit := PermitState.Revoked, token := true) else f
  }

  /** A fence's token is a child of the lifecycle token. */
  predicate IsCancelled(l: Lifecycle, f: Fence) {
    l.cancelled || f.token
  }

  // ---------------------------------------------------------------- shared objects

  class LifecycleEpoch {
    var number: nat
    var phase: LifecyclePhase
    var cancelled: bool

    constructor ()
      ensures View() == INITIAL_LIFECYCLE
    {
      number, phase, cancelled := 0, LifecyclePhase.Active, false;
    }

    ghost function View(): Lifecycle
      reads this
    {
      Lifecycle(number, phase, cancelled)
    }

    method BeginDrain() returns (epoch: nat)
      modifies this
      ensures View() == Drained(old(View())) && epoch == number
    {
      if phase.Draining? {
        return number;
      }
      phase := LifecyclePhase.Draining;
      number := number + 1;
      cancelled := true;
      return number;
    }

    method Issue() returns (r: Result<OperationFence, CommitRejection>)
      ensures r.Ok? <==> IssueFrom(View()).Ok?
      ensures r.Ok? ==> fresh(r.value) && fresh(r.value.permit) && r.value.lifecycle == this
      ensures r.Ok? ==> r.value.View() == IssueFrom(View()).value
      ensures r.Err? ==> r.error == IssueFrom(View()).error
    {
      if phase.Draining? {
        return Err(CommitRejection.Draining);
      }
      var permit := new CommitPermit();
      var fence := new OperationFence(this, number, permit);
      return Ok(fence);
    }
  }

  /** The permit and the token that the clones of one fence and its guard share. */
  class CommitPermit {
    var state: PermitState
    var token: bool

    constructor ()
      ensures state == PermitState.Active && !token
    {
      state, token := PermitState.Active, false;
    }
  }

  class OperationFence {
    const lifecycle: LifecycleEpoch
    const epoch: nat
    const permit: CommitPermit

    constructor (lifecycle: LifecycleEpoch, epoch: nat, permit: CommitPermit)
      ensures this.lifecycle == lifecycle && this.epoch == epoch && this.permit == permit
    {
      this.lifecycle, this.epoch, this.permit := lifecycle, epoch, permit;
    }

    ghost function View(): Fence
      reads permit
    {
      Fence(epoch, permit.state, permit.token)
    }

    method TryRevoke() returns (outcome: RevokeOutcome)
      modifies permit
      ensures (View(), outcome) == Revoking(old(View()))
    {
      match permit.state {
        case Active =>
          permit.state, permit.token := PermitState.Revoked, true;
          outcome := RevokeOutcome.Revoked;
        case Revoked => outcome := AlreadyRevoked;
        case _ => outcome := RevokeOutcome.Finalized;
      }
    }

    method Complete()
      modifies permit
      ensures View() == Completing(old(View()))
    {
      if permit.state.Active? {
        permit.state := PermitState.Finalized;
      }
    }

    /** `commit`: says whether the closure may run now; the permit stays as it is. */
    method Commit() returns (rejection: Option<CommitRejection>)
      ensures rejection == Admission(lifecycle.View(), View())
    {
      if lifecycle.number != epoch {
        return Some(StaleEpoch);
      }
      if lifecycle.phase.Draining? {
        return Some(CommitRejection.Draining);
      }
      return if permit.state.Active? then None else Some(CommitRejection.Revoked);
    }

    method BeginFinalCommit() returns (r: Result<FinalCommitGuard, CommitRejection>)
      modifies permit
      ensures Admission(lifecycle.View(), old(View())).None? ==>
        r.Ok? && fresh(r.value) && r.value.permit == permit && !r.value.committed
        && View() == old(View()).(permit := Committing)
      ensures Admission(lifecycle.View(), old(View())).Some? ==>
        r == Err(Admission(lifecycle.View(), old(View())).value) && View() == old(View())
    {
      var rejection := Commit();
      if rejection.Some? {
        return Err(rejection.value);
      }
      permit.state := Committing;
      var guard := new FinalCommitGuard(permit);
      return Ok(guard);
    }
  }

  class FinalCommitGuard {
    const permit: CommitPermit
    var committed: bool

    constructor (permit: CommitPermit)
      ensures this.permit == permit && !committed
    {
      this.permit, committed := permit, false;
    }

    /** `commit`, after its closure has run. */
    method Commit()
      modifies this, permit
      ensures committed && permit.state == PermitState.Finalized && permit.token == old(permit.token)
    {
      permit.state := PermitState.Finalized;
      committed := true;
    }

    /** `Drop`: a guard that was never committed revokes its permit. */
    method Drop()
      modifies permit
      ensures committed ==> permit.state == old(permit.state) && permit.token == old(permit.token)
      ensures !committed ==> forall e: nat ::
        Fence(e, permit.state, permit.token) == DroppingGuard(Fence(e, old(permit.state), old(permit.token)))
    {
      if !committed && permit.state.Committing? {
        permit.state, permit.token := PermitState.Revoked, true;
      }
    }
  }

  // ---------------------------------------------------------------- runs

  /** What the daemon's history says of one fence's final-commit guards. */
  datatype GuardLog = GuardLog(issued: nat, open: bool)

  /** The authority and every fence it has issued; a fence is known by its place. */
  datatype World = World(lifecycle: Lifecycle, fences: seq<Fence>, guards: seq<GuardLog>)

  const INITIAL_WORLD := World(INITIAL_LIFECYCLE, [], [])

  /** One locked section that some clone of a fence, or its guard, goes through. */
  datatype FenceAction = TryRevoke | Complete | Commit | BeginFinalCommit | CommitGuard | DropGuard

  datatype Event = Issue | BeginDrain | On(f: nat, action: FenceAction)

  datatype Answer = Done | Refused(rejection: CommitRejection) | RevokeAnswer(outcome: RevokeOutcome) | NotEnabled

  function Act(l: Lifecycle, f: Fence, g: GuardLog, action: FenceAction): (Fence, GuardLog, Answer) {
    match action
    case TryRevoke => (Revoking(f).0, g, RevokeAnswer(Revoking(f).1))
    case Complete => (Completing(f), g, Done)
    case Commit => (f, g, if Admission(l, f).Some? then Refused(Admission(l, f).value) else Done)
    case BeginFinalCommit =>
      if Admission(l, f).Some? then (f, g, Refused(Admission(l, f).value))
      else (f.(permit := Committing), GuardLog(g.issued + 1, true), Done)
    case CommitGuard =>
      if g.open then (f.(permit := PermitState.Finalized), g.(open := false), Done) else (f, g, NotEnabled)
    case DropGuard =>
      if g.open then (DroppingGuard(f), g.(open := false), Done) else (f, g, NotEnabled)
  }

  function Step(w: World, e: Event): (World, Answer) {
    match e
    case Issue =>
      if IssueFrom(w.lifecycle).Err? then (w, Refused(IssueFrom(w.lifecycle).error))
      else (w.(fences := w.fences + [IssueFrom(w.lifecycle).value],
               guards := w.guards + [GuardLog(0, false)]), Done)
    case BeginDrain => (w.(lifecycle := Drained(w.lifecycle)), Done)
    case On(f, action) =>
      if f >= |w.fences| || f >= |w.guards| then (w, NotEnabled) else
      var (fence, guard, answer) := Act(w.lifecycle, w.fences[f], w.guards[f], action);
      (w.(fences := w.fences[f := fence], guards := w.guards[f := guard]), answer)
  }

  function Run(w: World, events: seq<Event>): World
    decreases |events|
  {
    if events == [] then w else Run(Step(w, events[0]).0, events[1..])
  }

  ghost predicate FenceInv(f: Fence, g: GuardLog) {
    && f.epoch == 0
    && (f.token <==> f.permit.Revoked?)
    && (g.open <==> f.permit.Committing?)
    && g.issued <= 1
    && (f.permit.Active? ==> g.issued == 0)
    && (f.permit.Committing? ==> g.issued == 1)
  }

  ghost predicate Inv(w: World) {
    && w.lifecycle in {INITIAL_LIFECYCLE, Lifecycle(1, LifecyclePhase.Draining, true)}
    && |w.fences| == |w.guards|
    && forall i | 0 <= i < |w.fences| :: FenceInv(w.fences[i], w.guards[i])
  }

  lemma {:induction false} RunKeepsInv(w: World, events: seq<Event>)
    requires Inv(w)
    ensures Inv(Run(w, events))
    decreases |events|
  {
    if events != [] {
      var next := Step(w, events[0]).0;
      assert Inv(next);
      RunKeepsInv(next, events[1..]);
    }
  }

  predicate Settled(p: PermitState) {
    p.Finalized? || p.Revoked?
  }

  /** Whatever happens next, a settled permit stays as it is and the fence keeps its place. */
  lemma {:induction false} SettledPermitsAbsorb(w: World, events: seq<Event>, f: nat)
    requires Inv(w) && f < |w.fences| && Settled(w.fences[f].permit)
    ensures f < |Run(w, events).fences| && Run(w, events).fences[f] == w.fences[f]
    decreases |events|
  {
    if events != [] {
      var next := Step(w, events[0]).0;
      assert Inv(next);
      SettledPermitsAbsorb(next, events[1..], f);
    }
  }

  /** In every run, no fence ever issues a second guard, and the token says what happened. */
  lemma EveryRunIsFenced(events: seq<Event>, f: nat)
    requires f < |Run(INITIAL_WORLD, events).fences|
    ensures
      var w := Run(INITIAL_WORLD, events);
      && f < |w.guards| && w.guards[f].issued <= 1
      && (IsCancelled(w.lifecycle, w.fences[f]) <==>
            w.fences[f].permit.Revoked? || w.lifecycle.phase.Draining?)
  {
    RunKeepsInv(INITIAL_WORLD, events);
  }

  lemma {:induction false} DrainIsForever(w: World, events: seq<Event>)
    requires w.lifecycle.phase.Draining?
    ensures Run(w, events).lifecycle == w.lifecycle
    decreases |events|
  {
    if events != [] {
      DrainIsForever(Step(w, events[0]).0, events[1..]);
    }
  }

  /**
   Once drain has begun, nothing is issued and neither a commit nor a final commit starts:
   old fences answer with the stale epoch. The `Draining` rejection of a fence is never seen.
   */
  lemma DrainClosesAdmission(before: seq<Event>, after: seq<Event>, f: nat)
    ensures
      var w := Run(Run(INITIAL_WORLD, before), after);
      && (Run(INITIAL_WORLD, before).lifecycle.phase.Draining? ==>
            && Step(w, Issue) == (w, Refused(CommitRejection.Draining))
            && (f < |w.fences| ==> Step(w, On(f, Commit)) == (w, Refused(StaleEpoch)))
            && (f < |w.fences| ==> Step(w, On(f, BeginFinalCommit)) == (w, Refused(StaleEpoch))))
      && Step(w, On(f, Commit)).1 != Refused(CommitRejection.Draining)
      && Step(w, On(f, BeginFinalCommit)).1 != Refused(CommitRejection.Draining)
  {
    var mid := Run(INITIAL_WORLD, before);
    RunKeepsInv(INITIAL_WORLD, before);
    RunKeepsInv(mid, after);
    if mid.lifecycle.phase.Draining? {
      DrainIsForever(mid, after);
      var w := Run(mid, after);
      assert f < |w.fences| ==> w.fences[f := w.fences[f]] == w.fences && w.guards[f := w.guards[f]] == w.guards;
    }
  }

  /** The first guard event of fence `f` decides how its final commit ends. */
  function GuardFate(events: seq<Event>, f: nat): PermitState {
    if events == [] then Committing
    else if events[0] == On(f, CommitGuard) then PermitState.Finalized
    else if events[0] == On(f, DropGuard) then PermitState.Revoked
    else GuardFate(events[1..], f)
  }

  /**
   A guard taken before drain still decides the fence's fate, drain or revocation in between
   notwithstanding: `try_revoke` answers `Finalized` for a committing permit, yet the permit
   ends revoked exactly when the guard is dropped before it commits.
   */
  lemma {:induction false} OnlyItsGuardEndsACommit(w: World, events: seq<Event>, f: nat)
    requires Inv(w) && f < |w.fences| && w.fences[f].permit.Committing?
    ensures Revoking(w.fences[f]) == (w.fences[f], RevokeOutcome.Finalized)
    ensures f < |Run(w, events).fences| && Run(w, events).fences[f].permit == GuardFate(events, f)
    decreases |events|
  {
    if events != [] {
      var next := Step(w, events[0]).0;
      RunKeepsInv(w, events[..1]);
      assert Run(w, events[..1]) == Run(next, []);
      if next.fences[f].permit.Committing? {
        OnlyItsGuardEndsACommit(next, events[1..], f);
      } else {
        SettledPermitsAbsorb(next, events[1..], f);
      }
    }
  }

  // ---------------------------------------------------------------- what each action does where it is reached

  /** What any commit of this fence is told: the drain first, then whatever the permit says. */
  function CommitAnswer(draining: bool, permit: PermitState): Answer {
    if draining then Refused(StaleEpoch) else if permit.Active? then Done else Refused(CommitRejection.Revoked)
  }

  /** The permit that an action leaves, and its answer; `Draining` never shows. */
  function ActionTable(draining: bool, permit: PermitState, action: FenceAction): (PermitState, Answer) {
    match action
    case TryRevoke =>
      (if permit.Active? then PermitState.Revoked else permit,
       RevokeAnswer(if permit.Active? then RevokeOutcome.Revoked
                    else if permit.Revoked? then AlreadyRevoked else RevokeOutcome.Finalized))
    case Complete => (if permit.Active? then PermitState.Finalized else permit, Done)
    case Commit => (permit, CommitAnswer(draining, permit))
    case BeginFinalCommit =>
      (if !draining && permit.Active? then Committing else permit, CommitAnswer(draining, permit))
    case CommitGuard =>
      if permit.Committing? then (PermitState.Finalized, Done) else (permit, NotEnabled)
    case DropGuard =>
      if permit.Committing? then (PermitState.Revoked, Done) else (permit, NotEnabled)
  }

  /**
   In every run what an action does follows from the fence's permit and the drain alone: which guard
   is alive, which epoch was issued and whose token is cancelled need not be asked. It touches no
   other fence, and the permit is revoked exactly when the token is cancelled.
   */
  lemma ActionsFollowThePermit(events: seq<Event>, f: nat, action: FenceAction)
    requires f < |Run(INITIAL_WORLD, events).fences|
    ensures var w := Run(INITIAL_WORLD, events);
            var (next, answer) := Step(w, On(f, action));
            && next.lifecycle == w.lifecycle && |next.fences| == |w.fences|
            && (next.fences[f].permit, answer) ==
               ActionTable(w.lifecycle.phase.Draining?, w.fences[f].permit, action)
            && (next.fences[f].token <==> next.fences[f].permit.Revoked?)
            && forall i | 0 <= i < |w.fences| && i != f :: next.fences[i] == w.fences[i]
  {
    RunKeepsInv(INITIAL_WORLD, events);
    var w := Run(INITIAL_WORLD, events);
    assert FenceInv(w.fences[f], w.guards[f]);
  }

  /** In every run a fence is issued, active and uncancelled, exactly until the drain. */
  lemma FencesAreIssued(events: seq<Event>)
    ensures var w := Run(INITIAL_WORLD, events);
            var (next, answer) := Step(w, Issue);
            if w.lifecycle.phase.Draining? then next == w && answer == Refused(CommitRejection.Draining)
            else
              && answer == Done && next.lifecycle == w.lifecycle
              && next.fences == w.fences + [Fence(w.lifecycle.number, PermitState.Active, false)]
              && !IsCancelled(next.lifecycle, next.fences[|w.fences|])
  {
    RunKeepsInv(INITIAL_WORLD, events);
  }
}
