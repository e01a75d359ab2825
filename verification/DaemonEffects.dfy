/** What it takes for a request to be accepted, and what an accepted request has done. */
module DaemonEffects {
  import opened Wrappers
  import opened Registrations
  import opened DomainOwnership
  import opened Coordinator
  import opened OperationFences
  import opened RuntimeReceipts
  import opened DesiredState
  import opened DaemonTransactions
  import opened DaemonRequests

  // ---------------------------------------------------------------- admission

  predicate Admitted(d: Daemon, f: Fence) {
    Admission(d.lifecycle, f).None?
  }

  /** Neither a revocation of this operation nor the drain. */
  predicate Harmless(es: seq<EnvEvent>) {
    forall e | e in es :: e.Heartbeat?
  }

  /** Interference leaves a fence admitted exactly when it was and nothing closed it. */
  lemma {:induction false} InterferenceAndAdmission(d: Daemon, f: Fence, es: seq<EnvEvent>)
    ensures var (d1, f1) := Interfered(d, f, es, false);
            Admitted(d1, f1) <==> Admitted(d, f) && Harmless(es)
    decreases |es|
  {
    if es != [] {
      var (d1, f1) := Disturbed(d, f, es[0], false);
      InterferenceAndAdmission(d1, f1, es[1..]);
      assert Harmless(es) <==> es[0].Heartbeat? && Harmless(es[1..]);
    }
  }

  lemma TransitionKeepsAdmission(d: Daemon, f: Fence, p: Plan, regs: Registry, s: Schedule, how: Rendering)
    ensures var a := AppliedTransition(d, f, p, regs, s, how);
            a.failure.None? ==> (Admitted(a.daemon, a.fence) <==> Admitted(d, f) && Harmless(s.beforeTransition))
  {
    hide RolledBackTransition;
    hide BegunTransition;
    hide FinishedTransition;
    hide BegunApply;
    hide Interfered;
    InterferenceAndAdmission(d, f, s.beforeTransition);
  }

  /**
   Whatever is published was admitted all along: if a transaction publishes, its fence was
   admitted when it began, and neither revoked nor overtaken by the drain before the guard was taken.
   */
  lemma PublishedWasAdmitted(d: Daemon, f: Fence, p: Plan, regs: Registry, s: Schedule, how: Rendering)
    requires Executed(d, f, p, regs, s, how).2.None?
    ensures Admitted(d, f) && Harmless(s.beforeTransition) && Harmless(s.beforePublish)
  {
    hide AppliedTransition;
    hide PublishedUnderGuard;
    hide RolledBackTransition;
    hide Interfered;
    TransitionKeepsAdmission(d, f, p, regs, s, how);
    var a := AppliedTransition(d, f, p, regs, s, how);
    InterferenceAndAdmission(a.daemon, a.fence, s.beforePublish);
  }

  /** Once the guard is taken, neither a revocation nor the drain changes what is published or why it fails. */
  lemma OnlyFaultsStopAGuard(d: Daemon, f: Fence, p: Plan, merged: Registry, receipt: Option<Receipt>, s: Schedule)
    requires f.permit.Committing?
    ensures var (after, f1, failure) := PublishedUnderGuard(d, f, p, merged, receipt, s);
            var (calm, f2, alone) := PublishedUnderGuard(d, f, p, merged, receipt, s.(duringPublish := []));
            && failure == alone
            && (failure.None? ==> after == calm.(lifecycle := after.lifecycle) && f1 == f2)
  {
    hide RolledBackTransition;
    hide AcceptedTransition;
    hide PersistedTable;
    LockedInterference(d, f, s.duringPublish);
  }

  /** While the publishing section holds the registry lock, others can only begin the drain. */
  lemma {:induction false} LockedInterference(d: Daemon, f: Fence, es: seq<EnvEvent>)
    requires f.permit.Committing?
    ensures var (d1, f1) := Interfered(d, f, es, true);
            f1 == f && d1 == d.(lifecycle := d1.lifecycle)
    decreases |es|
  {
    if es != [] {
      LockedInterference(Disturbed(d, f, es[0], true).0, f, es[1..]);
    }
  }

  // ---------------------------------------------------------------- effects

  ghost predicate OthersKept(before: Registry, after: Registry, id: string) {
    && (forall k | k != id :: k in after <==> k in before)
    && forall k | k in after && k != id && k in before :: SameButHeartbeat(after[k], before[k])
  }

  /** The same letter, one of them in upper case. */
  predicate DifferInCase(a: char, b: char) {
    ('A' <= a <= 'Z' && b as int == a as int + 32) || ('A' <= b <= 'Z' && a as int == b as int + 32)
  }

  /** Two names match when they differ in the case of ASCII letters at most. */
  lemma CaseIsIgnoredExactly(a: string, b: string)
    ensures EqIgnoreAsciiCase(a, b) <==>
            |a| == |b| && forall i | 0 <= i < |a| :: a[i] == b[i] || DifferInCase(a[i], b[i])
  {
    forall i | 0 <= i < |a| && i < |b|
      ensures Lower(a[i]) == Lower(b[i]) <==> a[i] == b[i] || DifferInCase(a[i], b[i])
    {
      assert Lower(a[i]) as int == (if 'A' <= a[i] <= 'Z' then a[i] as int + 32 else a[i] as int);
      assert Lower(b[i]) as int == (if 'A' <= b[i] <= 'Z' then b[i] as int + 32 else b[i] as int);
    }
  }

  /** Place `i` is the first domain that matches the key, up to ASCII case. */
  ghost predicate FirstMatch(domains: seq<Domain>, key: string, i: nat) {
    && i < |domains| && EqIgnoreAsciiCase(domains[i].canonical, key)
    && forall j | 0 <= j < i :: !EqIgnoreAsciiCase(domains[j].canonical, key)
  }

  lemma {:induction false} WithDomainExactly(domains: seq<Domain>, key: string, enabled: bool)
    ensures WithDomain(domains, key, enabled).None? <==>
            forall i | 0 <= i < |domains| :: !EqIgnoreAsciiCase(domains[i].canonical, key)
    ensures WithDomain(domains, key, enabled).Some? ==>
              exists i: nat :: FirstMatch(domains, key, i) &&
                WithDomain(domains, key, enabled).value ==
                    domains[i := domains[i].(activation := ActivationState.FromEnabled(enabled))]
  {
    if domains != [] {
      if EqIgnoreAsciiCase(domains[0].canonical, key) {
        assert FirstMatch(domains, key, 0);
      } else {
        WithDomainExactly(domains[1..], key, enabled);
        if WithDomain(domains[1..], key, enabled).Some? {
          var i: nat :| FirstMatch(domains[1..], key, i) &&
            WithDomain(domains[1..], key, enabled).value ==
                domains[1..][i := domains[1..][i].(activation := ActivationState.FromEnabled(enabled))];
          assert FirstMatch(domains, key, i + 1);
          assert [domains[0]] + domains[1..][i := domains[1..][i].(activation := ActivationState.FromEnabled(enabled))]
              == domains[i + 1 := domains[i + 1].(activation := ActivationState.FromEnabled(enabled))];
        }
      }
    }
  }

  /** What an accepted request has done to the registry, heartbeats aside. */
  ghost predicate HasDone(request: Request, before: Registry, after: Registry, table: Option<Table>) {
    match request
    case Register(r, adapted) =>
      && OwnerIsValid(r) && r.id in after && OthersKept(before, after, r.id)
      && (r.id in before ==> before[r.id].nonce == r.nonce)
      && var asked := r.(domains := adapted.domains);
         var restored := if table.Some? then RestoredFrom(table.value, asked) else asked;
         after[r.id] == restored.(createdAt := after[r.id].createdAt, lastHeartbeat := after[r.id].lastHeartbeat)
    case Unregister(id, nonce) =>
      OwnedBy(before, id, nonce) && id !in after && OthersKept(before, after, id)
    case Heartbeat(id, nonce, now) =>
      OwnedBy(before, id, nonce) && SameButHeartbeats(after, before) && now <= after[id].lastHeartbeat
    case SetEntrypointEnabled(id, onlyNonce, enabled) =>
      && id in before && id in after && OthersKept(before, after, id)
      && (onlyNonce.Some? ==> before[id].nonce == onlyNonce.value)
      && SameButHeartbeat(after[id], before[id].(activation := ActivationState.FromEnabled(enabled)))
    case SetDomainEnabled(id, key, enabled) =>
      && id in before && id in after && OthersKept(before, after, id)
      && exists i: nat :: FirstMatch(before[id].domains, key, i) &&
           SameButHeartbeat(after[id], before[id].(domains :=
             before[id].domains[i := before[id].domains[i].(activation := ActivationState.FromEnabled(enabled))]))
  }

  lemma OnlyOneChanged(start: Daemon, d: Daemon, id: string, after: Registry, regs: Registry)
    requires HeartbeatsOnly(start, d) && SameButHeartbeats(after, regs) && OthersKept(d.registrations, regs, id)
    ensures OthersKept(start.registrations, after, id)
  {}

  /** What a request proposes, and what it takes to be proposed. */
  ghost predicate ProposesWhatIsAsked(d: Daemon, f: Fence, request: Request, s: Schedule) {
    var x := ProposalFor(d, f, request, s);
    x.Proposed? ==>
      && !request.Heartbeat?
      && (Admitted(x.daemon, x.fence) ==> Admitted(d, f))
      && HasDone(request, x.daemon.registrations, x.registrations, d.table)
  }

  lemma RegisterProposes(d: Daemon, f: Fence, r: Registration, adapted: Adapted, s: Schedule)
    ensures ProposesWhatIsAsked(d, f, Register(r, adapted), s)
  {
    hide CommittedPrepared;
    hide Interfered;
    hide OwnerIsValid;
    hide RestoredFrom;
    hide ActiveDomainOwnershipConflict;
    hide Admission;
    hide Max;
    InterferenceIsHeartbeats(d, f, s.beforeClone, false);
    InterferenceAndAdmission(d, f, s.beforeClone);
  }

  lemma SetDomainProposes(d: Daemon, f: Fence, id: string, key: string, enabled: bool, s: Schedule)
    ensures ProposesWhatIsAsked(d, f, SetDomainEnabled(id, key, enabled), s)
  {
    hide Interfered;
    hide WithDomain;
    hide ActiveDomainOwnershipConflict;
    InterferenceAndAdmission(d, f, s.beforeClone);
    var d1 := Interfered(d, f, s.beforeClone, false).0;
    if id in d1.registrations {
      WithDomainExactly(d1.registrations[id].domains, key, enabled);
    }
  }

  lemma RequestsProposeWhatIsAsked(d: Daemon, f: Fence, request: Request, s: Schedule)
    ensures ProposesWhatIsAsked(d, f, request, s)
  {
    hide Interfered;
    hide ActiveDomainOwnershipConflict;
    hide RegisterProposal;
    hide SetDomainProposal;
    InterferenceAndAdmission(d, f, s.beforeClone);
    match request
    case Register(r, adapted) => RegisterProposes(d, f, r, adapted, s);
    case SetDomainEnabled(id, key, enabled) => SetDomainProposes(d, f, id, key, enabled, s);
    case _ =>
  }

  /** An effect is told apart from other tasks' heartbeats neither before nor after. */
  lemma HasDoneDespiteHeartbeats(request: Request, start: Daemon, d: Daemon, after: Registry, regs: Registry,
                                 table: Option<Table>)
    requires HeartbeatsOnly(start, d) && SameButHeartbeats(after, regs) && !request.Heartbeat?
    requires HasDone(request, d.registrations, regs, table)
    ensures HasDone(request, start.registrations, after, table)
  {
    hide RestoredFrom;
    hide OwnerIsValid;
    hide EqIgnoreAsciiCase;
    match request
    case Register(r, _) => OnlyOneChanged(start, d, r.id, after, regs);
    case Unregister(id, _) => OnlyOneChanged(start, d, id, after, regs);
    case Heartbeat(_, _, _) =>
    case SetEntrypointEnabled(id, _, _) => OnlyOneChanged(start, d, id, after, regs);
    case SetDomainEnabled(id, _, _) => OnlyOneChanged(start, d, id, after, regs);
  }

  lemma HeartbeatHasDone(d: Daemon, f: Fence, id: string, nonce: string, now: int, s: Schedule)
    ensures var x := HeartbeatProposal(d, f, id, nonce, now, s);
            x.answer == Ok(Accepted) ==>
              && Admitted(d, f)
              && HasDone(Request.Heartbeat(id, nonce, now), d.registrations, x.daemon.registrations, d.table)
  {
    hide Interfered;
    InterferenceIsHeartbeats(d, f, s.beforeClone, false);
    InterferenceAndAdmission(d, f, s.beforeClone);
  }

  /**
   An accepted request was admitted, and has done to the registry what it asked for and nothing
   else: whatever other tasks did meanwhile shows only in last heartbeats.
   */
  lemma AcceptedHasDone(d: Daemon, f: Fence, request: Request, s: Schedule, how: Rendering)
    ensures var (after, _, answer) := Handled(d, f, request, s, how);
            answer == Ok(Accepted) ==> Admitted(d, f) && HasDone(request, d.registrations, after.registrations, d.table)
  {
    hide Executed;
    hide HasDone;
    hide Checked;
    var x := ProposalFor(d, f, request, s);
    if x.Proposed? && Executed(x.daemon, x.fence, x.plan, x.registrations, s, how).2.None? {
      hide ProposalFor;
      PreparingIsHeartbeats(d, f, request, s);
      RequestsProposeWhatIsAsked(d, f, request, s);
      PublishedWasAdmitted(x.daemon, x.fence, x.plan, x.registrations, s, how);
      var after := Executed(x.daemon, x.fence, x.plan, x.registrations, s, how).0;
      PublishedRegistrations(x.daemon, x.fence, x.plan, x.registrations, s, how);
      HasDoneDespiteHeartbeats(request, d, x.daemon, after.registrations, x.registrations, d.table);
    } else if request.Heartbeat? {
      HeartbeatHasDone(d, f, request.id, request.nonce, request.now, s);
    } else {
      OnlyHeartbeatsSettleAccepted(d, f, request, s);
    }
  }

  lemma PublishedRegistrations(d: Daemon, f: Fence, p: Plan, regs: Registry, s: Schedule, how: Rendering)
    requires Executed(d, f, p, regs, s, how).2.None?
    ensures SameButHeartbeats(Executed(d, f, p, regs, s, how).0.registrations, regs)
  {
    hide AppliedTransition;
    hide Published;
    var a := AppliedTransition(d, f, p, regs, s, how);
    SuccessfulPublishing(a.daemon, a.fence, a.plan, regs, a.receipt, s);
  }

  lemma OnlyHeartbeatsSettleAccepted(d: Daemon, f: Fence, request: Request, s: Schedule)
    ensures var x := ProposalFor(d, f, request, s); x.Settled? && x.answer == Ok(Accepted) ==> request.Heartbeat?
  {
    hide Interfered;
    hide Stamped;
    hide WithDomain;
    hide CommittedPrepared;
    hide ActiveDomainOwnershipConflict;
  }

  /** A request other than a registration that is no longer admitted when it starts is told so, and touches nothing. */
  lemma FencedIsRejected(d: Daemon, f: Fence, request: Request, s: Schedule, how: Rendering)
    requires !request.Register? && !Admitted(d, f)
    ensures var (after, _, answer) := Handled(d, f, request, s, how);
            answer.Err? && HeartbeatsOnly(d, after)
  {
    hide Interfered;
    hide ActiveDomainOwnershipConflict;
    InterferenceIsHeartbeats(d, f, s.beforeClone, false);
    InterferenceAndAdmission(d, f, s.beforeClone);
  }

  /** A published transaction records when it was attempted, and when the runtime was last given a configuration. */
  lemma TimesAreRecorded(d: Daemon, f: Fence, p: Plan, regs: Registry, s: Schedule, how: Rendering)
    requires Executed(d, f, p, regs, s, how).2.None?
    ensures var current := Executed(d, f, p, regs, s, how).0.plan.current;
            && current.attemptedAt == Some(s.attemptedAt)
            && current.reloadedAt == if current.status.Applied? then Some(s.reloadedAt) else p.current.reloadedAt
  {
    hide Published;
    hide Interfered;
    hide RolledBackTransition;
    hide BegunTransition;
    hide AllDiagnostics;
    hide Values;
    hide Admission;
    var a := AppliedTransition(d, f, p, regs, s, how);
    assert a.failure.None?;
    PlanOfTransition(d, f, p, regs, s, how);
    SuccessfulPublishing(a.daemon, a.fence, a.plan, regs, a.receipt, s);
  }

  lemma BegunTimes(p: Plan, rs: seq<Registration>, now: int, how: Rendering)
    ensures var (p1, action) := BegunApply(p, rs, now, how);
            && p1.current.reloadedAt == p.current.reloadedAt
            && (action.Current? ==> p1.current.status.Failed? && p1.current.attemptedAt == Some(now))
            && (!action.Current? ==> action.attempted == now)
  {
    hide AllDiagnostics;
    hide NothingToServe;
    hide ConfigPaths;
  }

  lemma PlanOfTransition(d: Daemon, f: Fence, p: Plan, regs: Registry, s: Schedule, how: Rendering)
    requires AppliedTransition(d, f, p, regs, s, how).failure.None?
    ensures var current := AppliedTransition(d, f, p, regs, s, how).plan.current;
            && current.attemptedAt == Some(s.attemptedAt)
            && current.reloadedAt == if current.status.Applied? then Some(s.reloadedAt) else p.current.reloadedAt
  {
    hide Interfered;
    hide RolledBackTransition;
    hide BegunTransition;
    hide BegunApply;
    hide Values;
    hide Admission;
    BegunTimes(p, Values(regs), s.attemptedAt, how);
  }

  // ---------------------------------------------------------------- what an answer says

  /** Anything but an acceptance, under whatever fence, leaves the daemon untouched. */
  lemma RefusedIsUntouched(d: Daemon, f: Fence, request: Request, s: Schedule, how: Rendering)
    ensures var (after, _, answer) := Handled(d, f, request, s, how);
            answer != Ok(Accepted) ==> Untouched(d, after)
  {
    hide Executed;
    hide ProposalFor;
    PreparingIsHeartbeats(d, f, request, s);
    var x := ProposalFor(d, f, request, s);
    if x.Proposed? {
      TransactionsAreAllOrNothing(x.daemon, x.fence, x.plan, x.registrations, s, how);
      var (after, f1, failure) := Executed(x.daemon, x.fence, x.plan, x.registrations, s, how);
      assert Handled(d, f, request, s, how) == (after, f1, AnswerTo(failure));
      assert failure.Some? ==> Untouched(d, after);
    }
  }

  /**
   Every answer is honest: but for heartbeats, an acceptance comes with a finalized fence and any
   other answer with one that has not published; a heartbeat is remembered when it is accepted.
   */
  lemma HandlingIsHonest(d: Daemon, f: Fence, request: Request, s: Schedule, how: Rendering)
    requires f.permit.Active?
    ensures var (after, f1, answer) := Handled(d, f, request, s, how);
            && (answer == Ok(Accepted) ==> f1.permit.Finalized?)
            && (answer != Ok(Accepted) ==> Untouched(d, after))
            && (answer != Ok(Accepted) && !request.Heartbeat? ==> Undecided(f1))
            && (request.Heartbeat? ==> (answer.Ok? ==> f1.permit.Finalized?) && (answer.Err? ==> Undecided(f1)))
            && (request.Heartbeat? && answer == Ok(Accepted) ==>
                  Heard(request.id, request.nonce, after.clock) in after.heard)
  {
    hide Executed;
    RefusedIsUntouched(d, f, request, s, how);
    hide Untouched;
    if request.Heartbeat? {
      hide Interfered;
      InterferenceAndTheFence(d, f, s.beforeClone, false);
    } else {
      hide ProposalFor;
      SettlingIsRefusing(d, f, request, s);
      var x := ProposalFor(d, f, request, s);
      if x.Proposed? {
        PublishedMeansFinalized(x.daemon, x.fence, x.plan, x.registrations, s, how);
        var (after, f1, failure) := Executed(x.daemon, x.fence, x.plan, x.registrations, s, how);
        assert Handled(d, f, request, s, how) == (after, f1, AnswerTo(failure));
      }
    }
  }
}
