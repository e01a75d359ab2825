/** What an accepted request leaves in the coordinator, and in the times of its registration. */
module RequestResults {
  import opened Wrappers
  import opened StringOrder
  import opened Registrations
  import opened DomainOwnership
  import opened Coordinator
  import opened OperationFences
  import opened RuntimeReceipts
  import opened DesiredState
  import opened DaemonTransactions
  import opened DaemonRequests
  import opened DaemonInvariants
  import opened DaemonEffects

  // ---------------------------------------------------------------- routes and diagnostics

  /** The same routes and the same diagnostics for this id. */
  predicate SameFor(k: string, before: Plan, after: Plan) {
    && (k in after.routes <==> k in before.routes) && (k in after.routes ==> after.routes[k] == before.routes[k])
    && (k in after.diagnostics <==> k in before.diagnostics)
    && (k in after.diagnostics ==> after.diagnostics[k] == before.diagnostics[k])
  }

  /** Everything that was diagnosed, in order; what names no configuration file names this one. */
  predicate DiagnosedAt(ds: seq<Diagnostic>, found: seq<Diagnostic>, path: string) {
    && |ds| == |found|
    && forall i | 0 <= i < |found| ::
         && ds[i].code == found[i].code && ds[i].domainKey == found[i].domainKey
         && ds[i].sourceConfigPaths == if found[i].sourceConfigPaths == [] then [path] else found[i].sourceConfigPaths
  }

  /** A registration brings the routes of its adapter or its diagnostics; nothing else changes for anyone who stays. */
  ghost predicate PlanFollows(request: Request, before: Plan, after: Plan, registered: set<string>) {
    && after.routes.Keys <= registered && after.diagnostics.Keys <= registered
    && (forall k | k in registered && !(request.Register? && k == request.registration.id) :: SameFor(k, before, after))
    && (request.Register? ==>
          var (id, found) := (request.registration.id, request.adapted.diagnostics);
          if found == [] then
            id in after.routes && after.routes[id] == request.adapted.routes && id !in after.diagnostics
          else
            && id in after.diagnostics && id !in after.routes
            && DiagnosedAt(after.diagnostics[id], found, request.registration.configPath))
  }

  lemma BegunPlan(p: Plan, regs: Registry, now: int, how: Rendering)
    requires KeysAreIds(regs)
    ensures var next := BegunApply(p, Values(regs), now, how).0;
            next.routes == Restricted(p.routes, regs.Keys) && next.diagnostics == Restricted(p.diagnostics, regs.Keys)
  {
    hide AllDiagnostics;
    hide NothingToServe;
    hide Values;
    IdsOfValues(regs);
  }

  /** Publishing forgets the routes and diagnostics of whoever is not registered, and changes no others. */
  lemma PublishedPlan(d: Daemon, f: Fence, p: Plan, regs: Registry, s: Schedule, how: Rendering)
    requires KeysAreIds(regs) && Executed(d, f, p, regs, s, how).2.None?
    ensures var after := Executed(d, f, p, regs, s, how).0;
            && after.registrations.Keys == regs.Keys
            && after.plan.routes == Restricted(p.routes, regs.Keys)
            && after.plan.diagnostics == Restricted(p.diagnostics, regs.Keys)
  {
    hide AppliedTransition;
    hide Published;
    hide BegunApply;
    hide BegunTransition;
    hide Values;
    var a := AppliedTransition(d, f, p, regs, s, how);
    TransitionShape(d, f, p, regs, s, how);
    BegunPlan(p, regs, s.attemptedAt, how);
    SuccessfulPublishing(a.daemon, a.fence, a.plan, regs, a.receipt, s);
  }

  lemma ProposedPlan(d: Daemon, f: Fence, request: Request, s: Schedule)
    ensures var x := ProposalFor(d, f, request, s);
            x.Proposed? ==>
              x.plan == if request.Register?
                        then CommittedPrepared(d.plan, request.registration.configPath,
                               Prepared(request.registration.(domains := request.adapted.domains),
                                        request.adapted.routes, request.adapted.diagnostics), s.preparedAt)
                        else d.plan
    ensures var x := ProposalFor(d, f, request, s);
            x.Proposed? && request.Register? ==> request.registration.id in x.registrations
  {
    hide Interfered;
    hide Stamped;
    hide WithDomain;
    hide CommittedPrepared;
    hide ActiveDomainOwnershipConflict;
    InterferenceIsHeartbeats(d, f, s.beforeClone, false);
  }

  lemma ProposedPlanFollows(request: Request, before: Plan, regs: Registry, now: int)
    requires request.Register? ==> request.registration.id in regs
    ensures var p := if request.Register?
                     then CommittedPrepared(before, request.registration.configPath,
                            Prepared(request.registration.(domains := request.adapted.domains),
                                     request.adapted.routes, request.adapted.diagnostics), now)
                     else before;
            PlanFollows(request, before, p.(routes := Restricted(p.routes, regs.Keys),
                                            diagnostics := Restricted(p.diagnostics, regs.Keys)), regs.Keys)
  {}

  /**
   What an accepted request leaves to compose from: for a registration the routes that its adapter
   returned, or its diagnostics with their paths filled in; for everyone else who stays what was
   there; for nobody else anything.
   */
  lemma AcceptedPlan(d: Daemon, f: Fence, request: Request, s: Schedule, how: Rendering)
    requires DaemonInv(d, how)
    ensures var (after, _, answer) := Handled(d, f, request, s, how);
            answer == Ok(Accepted) && !request.Heartbeat? ==>
              PlanFollows(request, d.plan, after.plan, after.registrations.Keys)
  {
    hide ProposalFor;
    hide Executed;
    hide DaemonInv;
    hide PlanFollows;
    hide CommittedPrepared;
    var x := ProposalFor(d, f, request, s);
    OnlyTransactionsAccept(d, f, request, s);
    if x.Proposed? {
      CandidatesHaveIds(d, f, request, s, how);
      ProposedPlan(d, f, request, s);
      if Executed(x.daemon, x.fence, x.plan, x.registrations, s, how).2.None? {
        PublishedPlan(x.daemon, x.fence, x.plan, x.registrations, s, how);
        ProposedPlanFollows(request, d.plan, x.registrations, s.preparedAt);
        var after := Executed(x.daemon, x.fence, x.plan, x.registrations, s, how).0;
        FollowingIsOfRoutes(request, d.plan,
          x.plan.(routes := after.plan.routes, diagnostics := after.plan.diagnostics), after.plan,
          after.registrations.Keys);
      }
    }
  }

  lemma FollowingIsOfRoutes(request: Request, before: Plan, after: Plan, same: Plan, registered: set<string>)
    requires PlanFollows(request, before, after, registered)
    requires same.routes == after.routes && same.diagnostics == after.diagnostics
    ensures PlanFollows(request, before, same, registered)
  {}

  lemma CandidatesHaveIds(d: Daemon, f: Fence, request: Request, s: Schedule, how: Rendering)
    requires DaemonInv(d, how)
    ensures var x := ProposalFor(d, f, request, s); x.Proposed? ==> KeysAreIds(x.registrations)
  {
    hide ProposalFor;
    hide DaemonInv;
    RequestsProposeCandidates(d, f, request, s, how);
  }

  lemma OnlyTransactionsAccept(d: Daemon, f: Fence, request: Request, s: Schedule)
    ensures var x := ProposalFor(d, f, request, s); x.Settled? && !request.Heartbeat? ==> x.answer != Ok(Accepted)
  {
    hide Interfered;
    hide Stamped;
    hide WithDomain;
    hide CommittedPrepared;
    hide ActiveDomainOwnershipConflict;
  }

  // ---------------------------------------------------------------- the published state

  /**
   The state that an accepted request publishes: attempted by its own transaction; reloaded by it if
   it was applied, and otherwise when the daemon last was; without diagnostics unless it failed, and
   then with exactly those of the registrations that are published with it.
   */
  ghost predicate StateTells(before: Plan, after: Plan, regs: Registry, s: Schedule, x: Diagnostic) {
    && after.current.attemptedAt == Some(s.attemptedAt)
    && after.current.reloadedAt ==
       (if after.current.status.Applied? then Some(s.reloadedAt) else before.current.reloadedAt)
    && (x in after.current.diagnostics <==>
          after.current.status.Failed? && (IsDiagnosed(regs, after.diagnostics, x) || IsConflict(regs, x)))
  }

  lemma BegunState(p: Plan, regs: Registry, s: Schedule, how: Rendering, x: Diagnostic)
    requires KeysAreIds(regs)
    ensures var (p1, action) := BegunApply(p, Values(regs), s.attemptedAt, how);
            StateTells(p, if action.Current? then p1 else FinishedTransition(p1, action, s.reloadedAt), regs, s, x)
  {
    hide BegunApply;
    hide Values;
    hide IsConflict;
    FailedStatesNameTheTrouble(p, regs, s.attemptedAt, how, x);
    BegunPlan(p, regs, s.attemptedAt, how);
    BegunTimes(p, Values(regs), s.attemptedAt, how);
    var p1 := BegunApply(p, Values(regs), s.attemptedAt, how).0;
    assert IsDiagnosed(regs, p1.diagnostics, x) <==> IsDiagnosed(regs, p.diagnostics, x);
  }

  lemma PublishedState(d: Daemon, f: Fence, p: Plan, regs: Registry, s: Schedule, how: Rendering, x: Diagnostic)
    requires KeysAreIds(regs) && Executed(d, f, p, regs, s, how).2.None?
    ensures StateTells(p, Executed(d, f, p, regs, s, how).0.plan, regs, s, x)
  {
    hide AppliedTransition;
    hide Published;
    hide BegunApply;
    hide BegunTransition;
    hide FinishedTransition;
    hide Values;
    hide StateTells;
    var a := AppliedTransition(d, f, p, regs, s, how);
    TransitionShape(d, f, p, regs, s, how);
    BegunState(p, regs, s, how, x);
    SuccessfulPublishing(a.daemon, a.fence, a.plan, regs, a.receipt, s);
  }

  lemma {:induction false} CopiesAlike(r: Registration, other: Registration, d: string, entries: seq<string>)
    requires SameButHeartbeat(r, other)
    ensures ConfigPaths(Copies(r, d, entries)) == ConfigPaths(Copies(other, d, entries))
  {
    if entries != [] {
      var n := |entries| - 1;
      CopiesAlike(r, other, d, entries[..n]);
      PathsOfMore(Copies(r, d, entries[..n]), if entries[n] == d then [r] else []);
      PathsOfMore(Copies(other, d, entries[..n]), if entries[n] == d then [other] else []);
    }
  }

  lemma PathsOfMore(a: seq<Registration>, b: seq<Registration>)
    ensures ConfigPaths(a + b) == ConfigPaths(a) + ConfigPaths(b)
  {}

  lemma {:induction false} ClaimantsAlike(rs: seq<Registration>, other: seq<Registration>, d: string)
    requires Alike(rs, other)
    ensures ConfigPaths(Claimants(rs, d)) == ConfigPaths(Claimants(other, d))
  {
    hide ConfigPaths;
    if rs != [] {
      var n := |rs| - 1;
      var x, y := rs[n], other[n];
      ClaimantsAlike(rs[..n], other[..n], d);
      CopiesAlike(x, y, d, EnabledEntries(x.domains));
      var more := if x.activation.IsEnabled() then Copies(x, d, EnabledEntries(x.domains)) else [];
      var others := if y.activation.IsEnabled() then Copies(y, d, EnabledEntries(y.domains)) else [];
      assert ConfigPaths(more) == ConfigPaths(others);
      PathsOfMore(Claimants(rs[..n], d), more);
      PathsOfMore(Claimants(other[..n], d), others);
    }
  }

  lemma ReportsAlike(rs: seq<Registration>, other: seq<Registration>, x: Diagnostic)
    requires Alike(rs, other) && x in ConflictDiagnostics(rs)
    ensures x in ConflictDiagnostics(other)
  {
    hide Claimants;
    hide ConflictsAmong;
    ConflictsNameTheContested(Sorted(ClaimedDomains(rs)), OwnerTable(rs), x);
    var d :| d in ClaimedDomains(rs) && |OwnerTable(rs)[d]| > 1
             && x == Diagnostic("domain-conflict", Some(d), ConfigPaths(OwnerTable(rs)[d]));
    ClaimantsAlike(rs, other, d);
    assert |Claimants(rs, d)| == |ConfigPaths(Claimants(other, d))| == |Claimants(other, d)|;
    ClaimedExactly(other, d);
    ConflictsNameTheContested(Sorted(ClaimedDomains(other)), OwnerTable(other), x);
    assert d in Sorted(ClaimedDomains(other)) && OwnerTable(other)[d] == Claimants(other, d);
  }

  /** A registry has the same conflicts whatever its heartbeats are. */
  lemma ConflictsDespiteHeartbeats(a: Registry, b: Registry, x: Diagnostic)
    requires SameButHeartbeats(a, b) && KeysAreIds(a) && KeysAreIds(b) && IsConflict(a, x)
    ensures IsConflict(b, x)
  {
    hide ConflictDiagnostics;
    hide IsConflict;
    ValuesAlike(a, b, Sorted(a.Keys));
    ReportedExactly(a, x);
    ReportedExactly(b, x);
    ReportsAlike(Values(a), Values(b), x);
  }

  lemma StateDespiteHeartbeats(before: Plan, after: Plan, a: Registry, b: Registry, s: Schedule, x: Diagnostic)
    requires SameButHeartbeats(a, b) && KeysAreIds(a) && KeysAreIds(b) && StateTells(before, after, a, s, x)
    ensures StateTells(before, after, b, s, x)
  {
    hide IsConflict;
    HeartbeatsAreSymmetric(a, b);
    if IsConflict(a, x) {
      ConflictsDespiteHeartbeats(a, b, x);
    }
    if IsConflict(b, x) {
      ConflictsDespiteHeartbeats(b, a, x);
    }
  }

  lemma ProposedReloads(d: Daemon, f: Fence, request: Request, s: Schedule)
    ensures var x := ProposalFor(d, f, request, s);
            x.Proposed? ==> x.plan.current.reloadedAt == d.plan.current.reloadedAt
  {
    hide ProposalFor;
    ProposedPlan(d, f, request, s);
  }

  /** What the state tells after an accepted request. */
  lemma AcceptedState(d: Daemon, f: Fence, request: Request, s: Schedule, how: Rendering, x: Diagnostic)
    requires DaemonInv(d, how)
    ensures var (after, _, answer) := Handled(d, f, request, s, how);
            answer == Ok(Accepted) && !request.Heartbeat? ==>
              StateTells(d.plan, after.plan, after.registrations, s, x)
  {
    hide ProposalFor;
    hide Executed;
    hide DaemonInv;
    hide IsConflict;
    hide IsDiagnosed;
    var y := ProposalFor(d, f, request, s);
    OnlyTransactionsAccept(d, f, request, s);
    if y.Proposed? {
      CandidatesHaveIds(d, f, request, s, how);
      ProposedReloads(d, f, request, s);
      if Executed(y.daemon, y.fence, y.plan, y.registrations, s, how).2.None? {
        var after := Executed(y.daemon, y.fence, y.plan, y.registrations, s, how).0;
        PublishedState(y.daemon, y.fence, y.plan, y.registrations, s, how, x);
        PublishedRegistrations(y.daemon, y.fence, y.plan, y.registrations, s, how);
        HeartbeatsAreSymmetric(after.registrations, y.registrations);
        StateDespiteHeartbeats(y.plan, after.plan, y.registrations, after.registrations, s, x);
      }
    }
  }

  // ---------------------------------------------------------------- times

  /** What is published is no staler than its candidate, and no clock goes back. */
  lemma PublishedIsNoStaler(d: Daemon, f: Fence, p: Plan, regs: Registry, s: Schedule, how: Rendering)
    requires Executed(d, f, p, regs, s, how).2.None?
    ensures var after := Executed(d, f, p, regs, s, how).0;
            && after.registrations.Keys == regs.Keys && d.clock <= after.clock
            && forall k | k in regs ::
                 && SameButHeartbeat(after.registrations[k], regs[k])
                 && regs[k].lastHeartbeat <= after.registrations[k].lastHeartbeat
  {
    hide AppliedTransition;
    hide Published;
    var a := AppliedTransition(d, f, p, regs, s, how);
    TransitionTicks(d, f, p, regs, s, how);
    PublishingIsNoStaler(a.daemon, a.fence, a.plan, regs, a.receipt, s);
  }

  lemma TransitionTicks(d: Daemon, f: Fence, p: Plan, regs: Registry, s: Schedule, how: Rendering)
    requires AppliedTransition(d, f, p, regs, s, how).failure.None?
    ensures d.clock <= AppliedTransition(d, f, p, regs, s, how).daemon.clock
  {
    hide Interfered;
    hide BegunApply;
    hide BegunTransition;
    hide FinishedTransition;
    hide RolledBackTransition;
    hide Values;
    hide Admission;
    InterferenceIsHeartbeats(d, f, s.beforeTransition, false);
  }

  lemma PublishingIsNoStaler(d: Daemon, f: Fence, p: Plan, regs: Registry, receipt: Option<Receipt>, s: Schedule)
    requires Published(d, f, p, regs, receipt, s).2.None?
    ensures var after := Published(d, f, p, regs, receipt, s).0;
            && after.registrations.Keys == regs.Keys && d.clock <= after.clock
            && forall k | k in regs ::
                 && SameButHeartbeat(after.registrations[k], regs[k])
                 && regs[k].lastHeartbeat <= after.registrations[k].lastHeartbeat
  {
    hide Interfered;
    hide AcceptedTransition;
    hide PersistedTable;
    hide RolledBackTransition;
    hide Admission;
    var (d1, f1) := Interfered(d, f, s.beforePublish, false);
    InterferenceIsHeartbeats(d, f, s.beforePublish, false);
    InterferenceIsHeartbeats(d1, f1.(permit := Committing), s.duringPublish, true);
  }

  /**
   A registration is made now: the time of its creation is what the clock showed when it was
   prepared, so no earlier than anything the daemon had seen before, and its last heartbeat is no
   earlier than that, whatever a former session left behind.
   */
  lemma RegisteredNow(d: Daemon, f: Fence, r: Registration, adapted: Adapted, s: Schedule, how: Rendering)
    ensures var (after, _, answer) := Handled(d, f, Register(r, adapted), s, how);
            answer == Ok(Accepted) ==>
              && r.id in after.registrations
              && var made := after.registrations[r.id];
                 && d.clock <= made.createdAt && s.preparedAt <= made.createdAt <= after.clock
                 && (s.beforeClone == [] ==> made.createdAt == Max(d.clock, s.preparedAt))
                 && made.createdAt <= made.lastHeartbeat
  {
    hide Executed;
    hide Max;
    hide OwnerIsValid;
    hide RestoredFrom;
    hide CommittedPrepared;
    hide ActiveDomainOwnershipConflict;
    var x := ProposalFor(d, f, Register(r, adapted), s);
    var (d1, f1) := Interfered(d, f, s.beforeClone, false);
    InterferenceIsHeartbeats(d, f, s.beforeClone, false);
    assert s.beforeClone == [] ==> d1 == d;
    hide Interfered;
    TickedAtLeast(d1, s.preparedAt);
    if x.Proposed? && Executed(x.daemon, x.fence, x.plan, x.registrations, s, how).2.None? {
      PublishedIsNoStaler(x.daemon, x.fence, x.plan, x.registrations, s, how);
    }
  }

  lemma TickedAtLeast(d: Daemon, now: int)
    ensures d.clock <= Ticked(d, now).clock && now <= Ticked(d, now).clock == Max(d.clock, now)
  {}

  /** While no drain begins, whatever heartbeat others send for a registered session is heard and recorded. */
  lemma {:induction false} OthersAreHeard(d: Daemon, f: Fence, es: seq<EnvEvent>, i: nat)
    requires i < |es| && es[i].Heartbeat? && OwnedBy(d.registrations, es[i].id, es[i].nonce)
    requires d.lifecycle.phase.Active? && EnvEvent.BeginDrain !in es[..i]
    ensures var after := Interfered(d, f, es, false).0;
            exists h :: h in after.heard && h.id == es[i].id && h.nonce == es[i].nonce && es[i].now <= h.at
    decreases |es|
  {
    var (d1, f1) := Disturbed(d, f, es[0], false);
    if i == 0 {
      var h := Heard(es[0].id, es[0].nonce, d1.clock);
      assert h in d1.heard;
      InterferenceIsHeartbeats(d1, f1, es[1..], false);
    } else {
      DisturbanceIsHeartbeats(d, f, es[0], false);
      assert es[..i][0] == es[0] && forall e | e in es[1..][..i - 1] :: e in es[..i];
      OthersAreHeard(d1, f1, es[1..], i - 1);
    }
  }

  /** Once the drain has begun nobody is heard any more. */
  lemma {:induction false} NobodyIsHeardAfterTheDrain(d: Daemon, f: Fence, es: seq<EnvEvent>, locked: bool)
    requires d.lifecycle.phase.Draining?
    ensures var after := Interfered(d, f, es, locked).0;
            after.heard == d.heard && after.registrations == d.registrations && after.lifecycle == d.lifecycle
    decreases |es|
  {
    if es != [] {
      var (d1, f1) := Disturbed(d, f, es[0], locked);
      NobodyIsHeardAfterTheDrain(d1, f1, es[1..], locked);
    }
  }
}
