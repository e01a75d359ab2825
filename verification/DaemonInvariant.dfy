/**
 The invariant of the daemon's published state, and that every request keeps it under any
 interference and any failure.
 */
module DaemonInvariants {
  import opened Wrappers
  import opened StringOrder
  import opened Registrations
  import opened DomainOwnership
  import opened ConfigComposition
  import opened Coordinator
  import opened OperationFences
  import opened RuntimeReceipts
  import opened DesiredState
  import opened DaemonTransactions
  import opened DaemonRequests

  /** What Caddy is given for a registry. */
  function Wanted(regs: Registry, routes: Routes, how: Rendering): Bytes {
    how.render(Composed(EnabledOnly(Values(regs)), routes, how.canon))
  }

  function HashOf(file: Option<Bytes>, how: Rendering): Option<string> {
    if file.Some? then Some(how.digest(file.value)) else None
  }

  /** Served equals published. */
  ghost predicate Serves(regs: Registry, p: Plan, rt: Runtime, how: Rendering) {
    && p.current.hash == HashOf(rt.effective, how)
    && rt.running == rt.effective.Some?
    && (rt.effective.Some? ==> rt.applied == |rt.effective.value|)
    && (p.current.status.Failed? <==> Troubled(regs, p.diagnostics))
    && (p.current.status.Idle? <==> !Troubled(regs, p.diagnostics) && Quiet(regs))
    && (p.current.status.Applied? <==> !Troubled(regs, p.diagnostics) && !Quiet(regs))
    && (p.current.status.Idle? ==> rt.effective.None?)
    && (p.current.status.Applied? ==> rt.effective == Some(Wanted(regs, p.routes, how)))
  }

  /** Routes and diagnostics partition the registered ids; a diagnosed registration has a diagnostic. */
  ghost predicate Partitioned(regs: Registry, p: Plan) {
    && p.routes.Keys !! p.diagnostics.Keys
    && p.routes.Keys + p.diagnostics.Keys == regs.Keys
    && forall k | k in p.diagnostics :: p.diagnostics[k] != []
  }

  /** What is stored agrees with what is published, and what is published could be stored. */
  ghost predicate StoredAgrees(table: Option<Table>, regs: Registry) {
    table.Some? ==> TableAgrees(table.value, regs) && forall k | k in regs :: DistinctDomains(regs[k].domains)
  }

  ghost predicate DaemonInv(d: Daemon, how: Rendering) {
    && KeysAreIds(d.registrations)
    && SingleOwner(d.registrations)
    && Partitioned(d.registrations, d.plan)
    && StoredAgrees(d.table, d.registrations)
    && NoHeartbeatLost(d)
    && (!d.shutdownRequested ==> Serves(d.registrations, d.plan, d.runtime, how))
    && d.lifecycle in {INITIAL_LIFECYCLE, Drained(INITIAL_LIFECYCLE)}
    && (d.shutdownRequested ==> d.lifecycle.phase.Draining?)
  }

  // ---------------------------------------------------------------- heartbeats change nothing that is served

  lemma {:induction false} ValuesAlike(a: Registry, b: Registry, keys: seq<string>)
    requires SameButHeartbeats(a, b) && forall k | k in keys :: k in a
    ensures forall i | 0 <= i < |keys| :: SameButHeartbeat(ValuesAt(a, keys)[i], ValuesAt(b, keys)[i])
  {
    if keys != [] {
      ValuesAlike(a, b, keys[1..]);
    }
  }

  ghost predicate Alike(rs: seq<Registration>, other: seq<Registration>) {
    |rs| == |other| && forall i | 0 <= i < |rs| :: SameButHeartbeat(rs[i], other[i])
  }

  lemma {:induction false} EnabledAlike(rs: seq<Registration>, other: seq<Registration>)
    requires Alike(rs, other)
    ensures Alike(EnabledOnly(rs), EnabledOnly(other))
  {
    if rs != [] {
      EnabledAlike(rs[1..], other[1..]);
    }
  }

  lemma ContributionAlike(r: Registration, other: Registration, routes: Routes, canon: string -> string)
    requires SameButHeartbeat(r, other)
    ensures Contribution(r, routes, canon) == Contribution(other, routes, canon)
  {
    assert ActiveDomains(r) == ActiveDomains(other);
  }

  lemma {:induction false} TopRoutesAlike(rs: seq<Registration>, other: seq<Registration>, routes: Routes,
                                          canon: string -> string)
    requires Alike(rs, other)
    ensures TopRoutes(rs, routes, canon) == TopRoutes(other, routes, canon)
  {
    hide Contribution;
    if rs != [] {
      var n := |rs| - 1;
      TopRoutesAlike(rs[..n], other[..n], routes, canon);
      ContributionAlike(rs[n], other[n], routes, canon);
    }
  }

  lemma DomainsAlike(rs: seq<Registration>, other: seq<Registration>)
    requires Alike(rs, other)
    ensures AllActiveDomains(rs) == AllActiveDomains(other)
  {
    forall d ensures d in AllActiveDomains(rs) <==> d in AllActiveDomains(other) {
      if r :| r in rs && d in ActiveDomains(r) {
        var i :| 0 <= i < |rs| && rs[i] == r;
        assert other[i] in other && ActiveDomains(other[i]) == ActiveDomains(r);
      }
      if r :| r in other && d in ActiveDomains(r) {
        var i :| 0 <= i < |other| && other[i] == r;
        assert rs[i] in rs && ActiveDomains(rs[i]) == ActiveDomains(r);
      }
    }
  }

  lemma WantedIgnoresHeartbeats(a: Registry, b: Registry, routes: Routes, how: Rendering)
    requires SameButHeartbeats(a, b)
    ensures Wanted(a, routes, how) == Wanted(b, routes, how)
  {
    ValuesAlike(a, b, Sorted(a.Keys));
    EnabledAlike(Values(a), Values(b));
    TopRoutesAlike(EnabledOnly(Values(a)), EnabledOnly(Values(b)), routes, how.canon);
    DomainsAlike(EnabledOnly(Values(a)), EnabledOnly(Values(b)));
  }

  lemma OwnershipIgnoresHeartbeats(a: Registry, b: Registry)
    requires SameButHeartbeats(a, b)
    ensures KeysAreIds(a) ==> KeysAreIds(b)
    ensures SingleOwner(a) ==> SingleOwner(b)
    ensures Quiet(a) ==> Quiet(b)
    ensures forall ds :: Troubled(a, ds) ==> Troubled(b, ds)
  {
    assert forall k, d :: Owns(b, k, d) ==> Owns(a, k, d);
    forall ds | Troubled(a, ds) ensures Troubled(b, ds) {
      var k :| k in a && ((a[k].activation.IsEnabled() && k in ds) || !ListsEachOnce(a[k]));
      if !ListsEachOnce(a[k]) {
        var d :| Listings(a[k], d) > 1;
        assert Listings(b[k], d) > 1;
      }
    }
  }

  lemma StorageIgnoresHeartbeats(t: Table, a: Registry, b: Registry)
    requires SameButHeartbeats(a, b) && TableAgrees(t, a)
    ensures TableAgrees(t, b)
  {
    forall k | SpeaksForItsDirectory(b, k)
      ensures b[k].workingDirectory in t && RowOf(t[b[k].workingDirectory], b[k])
    {
      assert SpeaksForItsDirectory(a, k);
    }
  }

  lemma HeartbeatsAreSymmetric(a: Registry, b: Registry)
    requires SameButHeartbeats(a, b)
    ensures SameButHeartbeats(b, a)
  {}

  /** Everything the invariant says besides heartbeats and lifecycle. */
  ghost predicate PublishedInv(regs: Registry, p: Plan, table: Option<Table>, rt: Runtime, shutdown: bool,
                               how: Rendering) {
    && KeysAreIds(regs) && SingleOwner(regs) && Partitioned(regs, p) && StoredAgrees(table, regs)
    && (!shutdown ==> Serves(regs, p, rt, how))
  }

  lemma PublishedInvIgnoresHeartbeats(a: Registry, b: Registry, p: Plan, table: Option<Table>, rt: Runtime,
                                      now: Runtime, shutdown: bool, how: Rendering)
    requires SameButHeartbeats(a, b) && PublishedInv(a, p, table, rt, shutdown, how) && SameService(rt, now)
    ensures PublishedInv(b, p, table, now, shutdown, how)
  {
    HeartbeatsAreSymmetric(a, b);
    OwnershipIgnoresHeartbeats(a, b);
    OwnershipIgnoresHeartbeats(b, a);
    WantedIgnoresHeartbeats(a, b, p.routes, how);
    if table.Some? {
      StorageIgnoresHeartbeats(table.value, a, b);
    }
  }

  // ---------------------------------------------------------------- a transaction keeps the invariant

  /** What a request hands to a transaction: a registry with single owners and a plan that covers it. */
  ghost predicate Candidate(d: Daemon, p: Plan, regs: Registry) {
    && KeysAreIds(regs) && SingleOwner(regs) && CandidateIsFresh(regs, d)
    && p.routes.Keys !! p.diagnostics.Keys && regs.Keys <= p.routes.Keys + p.diagnostics.Keys
    && (forall k | k in p.diagnostics :: p.diagnostics[k] != [])
    && p.current.hash == d.plan.current.hash
  }

  ghost predicate RuntimeAgrees(p: Plan, rt: Runtime, how: Rendering) {
    && p.current.hash == HashOf(rt.effective, how)
    && rt.running == rt.effective.Some?
    && (rt.effective.Some? ==> rt.applied == |rt.effective.value|)
  }

  /**
   Outside a transaction too: after the coordinator has applied a configuration, its hash is that of
   the effective file, whether the runtime took it or went back to what it had; the state is applied
   exactly if it took it, and only then is there a new reload time.
   */
  lemma ApplyingKeepsTheHash(p: Plan, rt: Runtime, rendered: Bytes, paths: seq<string>, attempted: int, now: int,
                             begin: BeginFaults, outcomeFails: bool, accept: AcceptFaults, rollback: RollbackFaults,
                             how: Rendering)
    requires RuntimeAgrees(p, rt, how)
    ensures var (next, ok, restored) := AppliedConfig(rt, rendered, begin, outcomeFails, accept, rollback);
            var after := FinishedApply(p, attempted, how.digest(rendered), paths, ok, now);
            && (ok || restored ==> RuntimeAgrees(after, next, how))
            && (after.current.status.Applied? <==> ok) && (after.current.status.Failed? <==> !ok)
            && after.current.attemptedAt == Some(attempted)
            && after.current.reloadedAt == if ok then Some(now) else p.current.reloadedAt
  {
    hide AppliedConfig;
    ApplyConfigIsAllOrNothing(rt, rendered, begin, outcomeFails, accept, rollback);
  }

  lemma TroubleIsOfMembers(regs: Registry, diagnostics: map<string, seq<Diagnostic>>)
    ensures Troubled(regs, Restricted(diagnostics, regs.Keys)) <==> Troubled(regs, diagnostics)
  {}

  lemma BegunPlanPartitions(d: Daemon, p: Plan, regs: Registry, now: int, how: Rendering)
    requires Candidate(d, p, regs)
    ensures Partitioned(regs, BegunApply(p, Values(regs), now, how).0)
  {
    hide BegunApply;
    hide Values;
    hide Troubled;
    hide Quiet;
    hide SingleOwner;
    hide CandidateIsFresh;
    BeginApplyDecides(p, regs, now, how);
  }

  /** What a successful transition leaves: nothing, when the configuration stays; otherwise what the receipt began. */
  lemma TransitionShape(d: Daemon, f: Fence, p: Plan, regs: Registry, s: Schedule, how: Rendering)
    requires AppliedTransition(d, f, p, regs, s, how).failure.None?
    ensures var a := AppliedTransition(d, f, p, regs, s, how);
            var (p1, action) := BegunApply(p, Values(regs), s.attemptedAt, how);
            && (action.Current? ==> a.plan == p1 && a.receipt.None? && a.daemon.runtime == d.runtime)
            && (!action.Current? ==>
                  && a.plan == FinishedTransition(p1, action, s.reloadedAt)
                  && a.receipt.Some? && (a.daemon.runtime, a.receipt) == BegunTransition(d.runtime, action, s.begin))
  {
    InterferenceIsHeartbeats(d, f, s.beforeTransition, false);
  }

  /** A receipt that is begun and accepted leaves exactly the file that the action asked for. */
  lemma BegunThenAccepted(rt: Runtime, action: ApplyAction, begin: BeginFaults, accept: AcceptFaults)
    requires !action.Current?
    ensures var (now, receipt) := BegunTransition(rt, action, begin);
            receipt.Some? && RuntimeReceipts.Accepted(now, receipt.value, accept).2 ==>
              var next := RuntimeReceipts.Accepted(now, receipt.value, accept).0;
              && (action.Stop? ==> next.effective.None? && !next.running)
              && (action.Apply? ==>
                    next.effective == Some(action.rendered) && next.running && next.applied == |action.rendered|)
              && next.candidates == rt.candidates
  {
    var rendered := if action.Apply? then action.rendered else [];
    BeginningIsATransition(rt, rendered, begin);
    var (now, receipt) := BegunTransition(rt, action, begin);
    if receipt.Some? {
      AcceptingStaysATransition(rt, now, receipt.value, accept);
    }
  }

  ghost predicate StatusFits(regs: Registry, p: Plan) {
    && (p.current.status.Failed? <==> Troubled(regs, p.diagnostics))
    && (p.current.status.Idle? <==> !Troubled(regs, p.diagnostics) && Quiet(regs))
    && (p.current.status.Applied? <==> !Troubled(regs, p.diagnostics) && !Quiet(regs))
  }

  lemma CurrentMeansFailed(p: Plan, rs: seq<Registration>, now: int, how: Rendering)
    ensures BegunApply(p, rs, now, how).1.Current? ==> BegunApply(p, rs, now, how).0.current.status.Failed?
  {
    hide AllDiagnostics;
    hide NothingToServe;
  }

  lemma FinishedStatusFits(d: Daemon, p: Plan, regs: Registry, now: int, reloadedAt: int, how: Rendering)
    requires Candidate(d, p, regs)
    ensures var (p1, action) := BegunApply(p, Values(regs), now, how);
            StatusFits(regs, if action.Current? then p1 else FinishedTransition(p1, action, reloadedAt))
  {
    hide BegunApply;
    hide Values;
    hide Troubled;
    hide Quiet;
    hide SingleOwner;
    hide CandidateIsFresh;
    BeginApplyDecides(p, regs, now, how);
    CurrentMeansFailed(p, Values(regs), now, how);
    TroubleIsOfMembers(regs, p.diagnostics);
  }

  /** A transition that is begun and then accepted leaves the runtime serving what its plan says. */
  lemma AcceptedTransitionServes(d: Daemon, f: Fence, p: Plan, regs: Registry, s: Schedule, how: Rendering)
    requires Candidate(d, p, regs) && RuntimeAgrees(d.plan, d.runtime, how)
    requires AppliedTransition(d, f, p, regs, s, how).failure.None?
    ensures var a := AppliedTransition(d, f, p, regs, s, how);
            var (rt, _, ok) := AcceptedTransition(a.daemon.runtime, a.receipt, s.accept);
            ok ==> Serves(regs, a.plan, rt, how)
  {
    TransitionShape(d, f, p, regs, s, how);
    FinishedStatusFits(d, p, regs, s.attemptedAt, s.reloadedAt, how);
    var (p1, action) := BegunApply(p, Values(regs), s.attemptedAt, how);
    RenderedIsWanted(p, regs, s.attemptedAt, how);
    if !action.Current? {
      BegunThenAccepted(d.runtime, action, s.begin, s.accept);
    }
  }

  lemma RenderedIsWanted(p: Plan, regs: Registry, now: int, how: Rendering)
    ensures var (p1, action) := BegunApply(p, Values(regs), now, how);
            action.Apply? ==> action.hash == how.digest(action.rendered)
                              && action.rendered ==
                                 how.render(Composed(EnabledOnly(Values(regs)), p1.routes, how.canon))
  {}

  lemma PersistedMeansAgreed(table: Option<Table>, regs: Registry, fails: bool)
    requires KeysAreIds(regs) && PersistedTable(table, regs, fails).Some?
    ensures StoredAgrees(PersistedTable(table, regs, fails).value, regs)
  {
    if table.Some? {
      var rs := Values(regs);
      StoredRegistryAgrees(table.value, regs);
      ValuesHaveDistinctIds(regs);
      PersistExactly(table.value, rs);
      forall k | k in regs ensures DistinctDomains(regs[k].domains) {
        ValuesAreTheRange(regs, regs[k]);
        var i: nat :| i < |rs| && rs[i] == regs[k];
        assert Storable(table.value, rs, i);
      }
    }
  }

  lemma PublishingKeepsInv(d: Daemon, f: Fence, p: Plan, regs: Registry, receipt: Option<Receipt>, s: Schedule,
                           how: Rendering)
    requires KeysAreIds(regs) && SingleOwner(regs) && Partitioned(regs, p)
    requires !d.shutdownRequested && AcceptedTransition(d.runtime, receipt, s.accept).2
             ==> Serves(regs, p, AcceptedTransition(d.runtime, receipt, s.accept).0, how)
    requires Published(d, f, p, regs, receipt, s).2.None?
    ensures var after := Published(d, f, p, regs, receipt, s).0;
            PublishedInv(after.registrations, after.plan, after.table, after.runtime, after.shutdownRequested, how)
  {
    SuccessfulPublishing(d, f, p, regs, receipt, s);
    var after := Published(d, f, p, regs, receipt, s).0;
    HeartbeatsAreSymmetric(after.registrations, regs);
    PublishedInvIgnoresHeartbeats(regs, after.registrations, p, None, after.runtime, after.runtime,
                                  after.shutdownRequested, how);
    PersistedMeansAgreed(d.table, after.registrations, s.persistFails);
  }

  predicate LifecycleFollows(before: Daemon, after: Daemon) {
    && after.lifecycle in {before.lifecycle, Drained(before.lifecycle)}
    && (after.shutdownRequested ==> before.shutdownRequested || after.lifecycle.phase.Draining?)
    && (before.shutdownRequested ==> after.shutdownRequested)
  }

  lemma RollingBackLifecycle(d: Daemon, f: Fence, receipt: Option<Receipt>, s: Schedule)
    ensures LifecycleFollows(d, RolledBackTransition(d, f, receipt, s).0)
  {
    InterferenceAndTheFence(d, f, s.beforeRollback, false);
    InterferenceIsHeartbeats(d, f, s.beforeRollback, false);
  }

  lemma TransitionLifecycle(d: Daemon, f: Fence, p: Plan, regs: Registry, s: Schedule, how: Rendering)
    ensures LifecycleFollows(d, AppliedTransition(d, f, p, regs, s, how).daemon)
  {
    var (d1, f1) := Interfered(d, f, s.beforeTransition, false);
    InterferenceAndTheFence(d, f, s.beforeTransition, false);
    InterferenceIsHeartbeats(d, f, s.beforeTransition, false);
    var (p1, action) := BegunApply(p, Values(regs), s.attemptedAt, how);
    if !action.Current? {
      var (rt, receipt) := BegunTransition(d1.runtime, action, s.begin);
      RollingBackLifecycle(d1.(runtime := rt), f1, receipt, s);
    }
  }

  lemma PublishingLifecycle(d: Daemon, f: Fence, p: Plan, regs: Registry, receipt: Option<Receipt>, s: Schedule)
    ensures LifecycleFollows(d, Published(d, f, p, regs, receipt, s).0)
  {
    InterferenceAndTheFence(d, f, s.beforePublish, false);
    InterferenceIsHeartbeats(d, f, s.beforePublish, false);
    var (d1, f1) := Interfered(d, f, s.beforePublish, false);
    RollingBackLifecycle(d1, f1, receipt, s);
    var (d2, f2) := Interfered(d1, f1.(permit := Committing), s.duringPublish, true);
    InterferenceAndTheFence(d1, f1.(permit := Committing), s.duringPublish, true);
    InterferenceIsHeartbeats(d1, f1.(permit := Committing), s.duringPublish, true);
    var (rt, after, ok) := AcceptedTransition(d2.runtime, receipt, s.accept);
    RollingBackLifecycle(d2.(runtime := rt), DroppingGuard(f2), after, s);
  }

  lemma ExecutedLifecycle(d: Daemon, f: Fence, p: Plan, regs: Registry, s: Schedule, how: Rendering)
    ensures LifecycleFollows(d, Executed(d, f, p, regs, s, how).0)
  {
    TransitionLifecycle(d, f, p, regs, s, how);
    var a := AppliedTransition(d, f, p, regs, s, how);
    if a.failure.None? {
      PublishingLifecycle(a.daemon, a.fence, a.plan, regs, a.receipt, s);
    }
  }

  /** A transaction over a candidate keeps the invariant, whether it publishes or fails. */
  lemma ExecutedKeepsInv(d: Daemon, f: Fence, p: Plan, regs: Registry, s: Schedule, how: Rendering)
    requires DaemonInv(d, how) && Candidate(d, p, regs)
    ensures DaemonInv(Executed(d, f, p, regs, s, how).0, how)
  {
    var (after, f1, failure) := Executed(d, f, p, regs, s, how);
    ExecutedLifecycle(d, f, p, regs, s, how);
    TransactionsLoseNoHeartbeat(d, f, p, regs, s, how);
    if failure.Some? {
      FailedKeepsPublished(d, f, p, regs, s, how);
    } else {
      SucceededIsPublished(d, f, p, regs, s, how);
    }
  }

  lemma FailedKeepsPublished(d: Daemon, f: Fence, p: Plan, regs: Registry, s: Schedule, how: Rendering)
    requires DaemonInv(d, how) && Executed(d, f, p, regs, s, how).2.Some?
    ensures var after := Executed(d, f, p, regs, s, how).0;
            PublishedInv(after.registrations, after.plan, after.table, after.runtime, after.shutdownRequested, how)
  {
    var after := Executed(d, f, p, regs, s, how).0;
    ExecutedLifecycle(d, f, p, regs, s, how);
    TransactionsAreAllOrNothing(d, f, p, regs, s, how);
    HeartbeatsAreSymmetric(after.registrations, d.registrations);
    var rt := if after.shutdownRequested then d.runtime else after.runtime;
    PublishedInvIgnoresHeartbeats(d.registrations, after.registrations, d.plan, d.table, d.runtime, rt,
                                  after.shutdownRequested, how);
  }

  lemma TransitionPlanPartitions(d: Daemon, f: Fence, p: Plan, regs: Registry, s: Schedule, how: Rendering)
    requires Candidate(d, p, regs) && AppliedTransition(d, f, p, regs, s, how).failure.None?
    ensures Partitioned(regs, AppliedTransition(d, f, p, regs, s, how).plan)
  {
    TransitionShape(d, f, p, regs, s, how);
    BegunPlanPartitions(d, p, regs, s.attemptedAt, how);
  }

  lemma SucceededIsPublished(d: Daemon, f: Fence, p: Plan, regs: Registry, s: Schedule, how: Rendering)
    requires DaemonInv(d, how) && Candidate(d, p, regs) && Executed(d, f, p, regs, s, how).2.None?
    ensures var after := Executed(d, f, p, regs, s, how).0;
            PublishedInv(after.registrations, after.plan, after.table, after.runtime, after.shutdownRequested, how)
  {
    var a := AppliedTransition(d, f, p, regs, s, how);
    TransitionLifecycle(d, f, p, regs, s, how);
    TransitionPlanPartitions(d, f, p, regs, s, how);
    if !d.shutdownRequested {
      AcceptedTransitionServes(d, f, p, regs, s, how);
    }
    PublishingKeepsInv(a.daemon, a.fence, a.plan, regs, a.receipt, s, how);
  }

  // ---------------------------------------------------------------- every request keeps the invariant

  lemma InterferenceKeepsInv(d: Daemon, f: Fence, es: seq<EnvEvent>, how: Rendering)
    requires DaemonInv(d, how)
    ensures DaemonInv(Interfered(d, f, es, false).0, how)
  {
    var after := Interfered(d, f, es, false).0;
    InterferenceIsHeartbeats(d, f, es, false);
    InterferenceKeepsHeartbeats(d, f, es, false);
    InterferenceAndTheFence(d, f, es, false);
    HeartbeatsAreSymmetric(after.registrations, d.registrations);
    PublishedInvIgnoresHeartbeats(d.registrations, after.registrations, d.plan, d.table, d.runtime, d.runtime,
                                  d.shutdownRequested, how);
  }

  lemma BeatingKeepsInv(d: Daemon, id: string, nonce: string, now: int, how: Rendering)
    requires DaemonInv(d, how)
    ensures DaemonInv(Beaten(d, id, nonce, now), how)
  {
    var after := Beaten(d, id, nonce, now);
    BeatingKeepsHeartbeats(d, id, nonce, now);
    PublishedInvIgnoresHeartbeats(d.registrations, after.registrations, d.plan, d.table, d.runtime, d.runtime,
                                  d.shutdownRequested, how);
  }

  /** A change that the ownership check lets through keeps single owners. */
  lemma CheckedChangeKeepsOwners(before: Registry, id: string, changed: Registration)
    requires KeysAreIds(before) && SingleOwner(before) && changed.id == id
    requires ActiveDomainOwnershipConflict(before[id := changed], id).None?
    ensures SingleOwner(before[id := changed])
  {
    var regs := before[id := changed];
    OwnershipCheckIsExact(regs, id);
    forall a, b, d | Owns(regs, a, d) && Owns(regs, b, d) ensures a == b {
      if a != id && b != id {
        assert Owns(before, a, d) && Owns(before, b, d);
      }
    }
  }

  /** A change that only gives domains up needs no check. */
  lemma GivingUpKeepsOwners(before: Registry, id: string, changed: Registration)
    requires SingleOwner(before)
    requires changed.activation.IsEnabled() ==> forall d :: d in ActiveDomains(changed) ==> Owns(before, id, d)
    ensures SingleOwner(before[id := changed])
  {
    var after := before[id := changed];
    forall a, b, d | Owns(after, a, d) && Owns(after, b, d) ensures a == b {
      assert a == id ==> d in ActiveDomains(changed);
      assert b == id ==> d in ActiveDomains(changed);
      assert Owns(before, a, d) && Owns(before, b, d);
    }
  }

  lemma {:induction false} DisablingADomain(domains: seq<Domain>, key: string)
    requires WithDomain(domains, key, false).Some?
    ensures forall e :: e in WithDomain(domains, key, false).value && e.activation.IsEnabled() ==> e in domains
  {
    if !EqIgnoreAsciiCase(domains[0].canonical, key) {
      DisablingADomain(domains[1..], key);
    }
  }

  lemma SameKeysAreFresh(d: Daemon, regs: Registry)
    requires NoHeartbeatLost(d)
    requires forall k | k in regs :: k in d.registrations && regs[k].nonce == d.registrations[k].nonce
                                     && regs[k].lastHeartbeat == d.registrations[k].lastHeartbeat
    ensures CandidateIsFresh(regs, d)
  {}

  lemma CommittedPlanCovers(d: Daemon, r: Registration, prepared: Prepared, now: int, regs: Registry)
    requires Partitioned(d.registrations, d.plan) && prepared.registration.id == r.id
    requires regs.Keys == d.registrations.Keys + {r.id}
    ensures var p := CommittedPrepared(d.plan, r.configPath, prepared, now);
            && p.routes.Keys !! p.diagnostics.Keys && p.routes.Keys + p.diagnostics.Keys == regs.Keys
            && (forall k | k in p.diagnostics :: p.diagnostics[k] != [])
            && p.current.hash == d.plan.current.hash
  {}

  lemma TickingKeepsInv(d: Daemon, now: int, how: Rendering)
    requires DaemonInv(d, how)
    ensures DaemonInv(Ticked(d, now), how)
  {}

  /** A new registration, checked, makes a candidate. */
  lemma RegistrationIsCandidate(d: Daemon, p: Plan, id: string, stamped: Registration)
    requires KeysAreIds(d.registrations) && SingleOwner(d.registrations) && NoHeartbeatLost(d)
    requires stamped.id == id && stamped.lastHeartbeat == d.clock
    requires p.routes.Keys !! p.diagnostics.Keys && p.routes.Keys + p.diagnostics.Keys == d.registrations.Keys + {id}
    requires (forall k | k in p.diagnostics :: p.diagnostics[k] != []) && p.current.hash == d.plan.current.hash
    requires ActiveDomainOwnershipConflict(d.registrations[id := stamped], id).None?
    ensures Candidate(d, p, d.registrations[id := stamped])
  {
    hide ActiveDomainOwnershipConflict;
    CheckedChangeKeepsOwners(d.registrations, id, stamped);
    hide SingleOwner;
  }

  lemma RegisterProposesCandidate(d: Daemon, f: Fence, r: Registration, adapted: Adapted, s: Schedule, how: Rendering)
    requires DaemonInv(d, how)
    ensures ProposesCandidate(RegisterProposal(d, f, r, adapted, s), how)
  {
    hide Interfered;
    hide CommittedPrepared;
    hide ActiveDomainOwnershipConflict;
    hide SingleOwner;
    hide NoHeartbeatLost;
    hide Serves;
    hide StoredAgrees;
    hide Candidate;
    var (d1, f1) := Interfered(d, f, s.beforeClone, false);
    InterferenceKeepsInv(d, f, s.beforeClone, how);
    var prepared := Prepared(r.(domains := adapted.domains), adapted.routes, adapted.diagnostics);
    var plan := CommittedPrepared(d1.plan, r.configPath, prepared, s.preparedAt);
    var d2 := Ticked(d1, s.preparedAt);
    TickingKeepsInv(d1, s.preparedAt, how);
    var regs := d2.registrations[r.id := Stamped(d2, r, adapted)];
    CommittedPlanCovers(d2, r, prepared, s.preparedAt, regs);
    if ActiveDomainOwnershipConflict(regs, r.id).None? {
      RegistrationIsCandidate(d2, plan, r.id, Stamped(d2, r, adapted));
    }
  }

  lemma RemovalIsCandidate(d: Daemon, id: string)
    requires KeysAreIds(d.registrations) && SingleOwner(d.registrations) && Partitioned(d.registrations, d.plan)
    requires NoHeartbeatLost(d)
    ensures Candidate(d, d.plan, d.registrations - {id})
  {
    var regs := d.registrations - {id};
    assert forall k, h :: Owns(regs, k, h) ==> Owns(d.registrations, k, h);
    SameKeysAreFresh(d, regs);
  }

  lemma UnregisterProposesCandidate(d: Daemon, f: Fence, id: string, nonce: string, s: Schedule, how: Rendering)
    requires DaemonInv(d, how)
    ensures ProposesCandidate(UnregisterProposal(d, f, id, nonce, s), how)
  {
    hide Interfered;
    InterferenceKeepsInv(d, f, s.beforeClone, how);
    RemovalIsCandidate(Interfered(d, f, s.beforeClone, false).0, id);
    hide Candidate;
  }

  lemma SetEntrypointProposesCandidate(d: Daemon, f: Fence, id: string, onlyNonce: Option<string>, enabled: bool,
                                       s: Schedule, how: Rendering)
    requires DaemonInv(d, how)
    ensures ProposesCandidate(SetEntrypointProposal(d, f, id, onlyNonce, enabled, s), how)
  {
    hide Interfered;
    hide Admission;
    hide Serves;
    hide StoredAgrees;
    hide SingleOwner;
    hide ActiveDomainOwnershipConflict;
    var (d1, f1) := Interfered(d, f, s.beforeClone, false);
    InterferenceKeepsInv(d, f, s.beforeClone, how);
    if id in d1.registrations {
      var changed := d1.registrations[id].(activation := ActivationState.FromEnabled(enabled));
      ChangeIsCandidate(d1, id, changed, enabled);
    }
  }

  /** A change of activation states alone makes a candidate, if it is checked or gives domains up. */
  lemma ChangeIsCandidate(d: Daemon, id: string, changed: Registration, check: bool)
    requires KeysAreIds(d.registrations) && SingleOwner(d.registrations) && Partitioned(d.registrations, d.plan)
    requires NoHeartbeatLost(d) && id in d.registrations
    requires var r := d.registrations[id];
             changed.id == id && changed.nonce == r.nonce && changed.lastHeartbeat == r.lastHeartbeat
    requires !check && changed.activation.IsEnabled() ==>
               forall h :: h in ActiveDomains(changed) ==> Owns(d.registrations, id, h)
    ensures !check || ActiveDomainOwnershipConflict(d.registrations[id := changed], id).None?
            ==> Candidate(d, d.plan, d.registrations[id := changed])
  {
    var regs := d.registrations[id := changed];
    SameKeysAreFresh(d, regs);
    if !check {
      GivingUpKeepsOwners(d.registrations, id, changed);
    } else if ActiveDomainOwnershipConflict(regs, id).None? {
      CheckedChangeKeepsOwners(d.registrations, id, changed);
    }
  }

  lemma SetDomainProposesCandidate(d: Daemon, f: Fence, id: string, key: string, enabled: bool, s: Schedule,
                                   how: Rendering)
    requires DaemonInv(d, how)
    ensures ProposesCandidate(SetDomainProposal(d, f, id, key, enabled, s), how)
  {
    hide Interfered;
    hide Admission;
    hide WithDomain;
    hide Serves;
    hide StoredAgrees;
    hide SingleOwner;
    hide ActiveDomainOwnershipConflict;
    var (d1, f1) := Interfered(d, f, s.beforeClone, false);
    InterferenceKeepsInv(d, f, s.beforeClone, how);
    if id in d1.registrations && WithDomain(d1.registrations[id].domains, key, enabled).Some? {
      var changed := d1.registrations[id].(domains := WithDomain(d1.registrations[id].domains, key, enabled).value);
      if !enabled {
        DisablingADomain(d1.registrations[id].domains, key);
      }
      ChangeIsCandidate(d1, id, changed, enabled);
    }
  }

  lemma HeartbeatProposesCandidate(d: Daemon, f: Fence, id: string, nonce: string, now: int, s: Schedule,
                                   how: Rendering)
    requires DaemonInv(d, how)
    ensures ProposesCandidate(HeartbeatProposal(d, f, id, nonce, now, s), how)
  {
    hide Interfered;
    InterferenceKeepsInv(d, f, s.beforeClone, how);
    BeatingKeepsInv(Interfered(d, f, s.beforeClone, false).0, id, nonce, now, how);
    hide DaemonInv;
  }

  /** The daemon before the transaction is sound, and what it is handed is a candidate. */
  ghost predicate ProposesCandidate(x: Preparation, how: Rendering) {
    DaemonInv(x.daemon, how) && (x.Proposed? ==> Candidate(x.daemon, x.plan, x.registrations))
  }

  lemma RequestsProposeCandidates(d: Daemon, f: Fence, request: Request, s: Schedule, how: Rendering)
    requires DaemonInv(d, how)
    ensures ProposesCandidate(ProposalFor(d, f, request, s), how)
  {
    hide DaemonInv;
    hide ProposesCandidate;
    match request
    case Register(r, adapted) => RegisterProposesCandidate(d, f, r, adapted, s, how);
    case Unregister(id, nonce) => UnregisterProposesCandidate(d, f, id, nonce, s, how);
    case Heartbeat(id, nonce, now) => HeartbeatProposesCandidate(d, f, id, nonce, now, s, how);
    case SetEntrypointEnabled(id, onlyNonce, enabled) =>
      SetEntrypointProposesCandidate(d, f, id, onlyNonce, enabled, s, how);
    case SetDomainEnabled(id, key, enabled) => SetDomainProposesCandidate(d, f, id, key, enabled, s, how);
  }

  lemma HandlingKeepsInv(d: Daemon, f: Fence, request: Request, s: Schedule, how: Rendering)
    requires DaemonInv(d, how)
    ensures DaemonInv(Handled(d, f, request, s, how).0, how)
  {
    hide DaemonInv;
    hide ProposalFor;
    hide Executed;
    RequestsProposeCandidates(d, f, request, s, how);
    var x := ProposalFor(d, f, request, s);
    if x.Proposed? {
      ExecutedKeepsInv(x.daemon, x.fence, x.plan, x.registrations, s, how);
    }
  }

  // ---------------------------------------------------------------- sessions

  /** An id that stays registered stays with its session. */
  ghost predicate SessionsKept(before: Registry, after: Registry) {
    forall k | k in before && k in after :: after[k].nonce == before[k].nonce
  }

  lemma ExecutedRegistrations(d: Daemon, f: Fence, p: Plan, regs: Registry, s: Schedule, how: Rendering)
    ensures var after := Executed(d, f, p, regs, s, how).0;
            SameButHeartbeats(after.registrations, regs) || SameButHeartbeats(after.registrations, d.registrations)
  {
    var (after, f1, failure) := Executed(d, f, p, regs, s, how);
    if failure.Some? {
      TransactionsAreAllOrNothing(d, f, p, regs, s, how);
    } else {
      var a := AppliedTransition(d, f, p, regs, s, how);
      SuccessfulPublishing(a.daemon, a.fence, a.plan, regs, a.receipt, s);
    }
  }

  lemma ProposalsKeepSessions(d: Daemon, f: Fence, request: Request, s: Schedule)
    ensures var x := ProposalFor(d, f, request, s);
            x.Proposed? ==> SessionsKept(d.registrations, x.registrations)
  {
    hide Interfered;
    hide Admission;
    hide WithDomain;
    hide CommittedPrepared;
    hide OwnerIsValid;
    hide ActiveDomainOwnershipConflict;
    InterferenceIsHeartbeats(d, f, s.beforeClone, false);
  }

  /** No request hands an id to another session, whatever goes on around it: only unregistering frees an id. */
  lemma HandlingKeepsSessions(d: Daemon, f: Fence, request: Request, s: Schedule, how: Rendering)
    ensures SessionsKept(d.registrations, Handled(d, f, request, s, how).0.registrations)
  {
    hide Executed;
    hide ProposalFor;
    PreparingIsHeartbeats(d, f, request, s);
    ProposalsKeepSessions(d, f, request, s);
    var x := ProposalFor(d, f, request, s);
    if x.Proposed? {
      ExecutedRegistrations(x.daemon, x.fence, x.plan, x.registrations, s, how);
    }
  }

  // ---------------------------------------------------------------- accepted heartbeats are remembered

  lemma RollingBackRemembers(d: Daemon, f: Fence, receipt: Option<Receipt>, s: Schedule)
    ensures d.heard <= RolledBackTransition(d, f, receipt, s).0.heard
  {
    InterferenceIsHeartbeats(d, f, s.beforeRollback, false);
  }

  lemma TransitionRemembers(d: Daemon, f: Fence, p: Plan, regs: Registry, s: Schedule, how: Rendering)
    ensures d.heard <= AppliedTransition(d, f, p, regs, s, how).daemon.heard
  {
    var (d1, f1) := Interfered(d, f, s.beforeTransition, false);
    InterferenceIsHeartbeats(d, f, s.beforeTransition, false);
    var (p1, action) := BegunApply(p, Values(regs), s.attemptedAt, how);
    if !action.Current? {
      var (rt, receipt) := BegunTransition(d1.runtime, action, s.begin);
      RollingBackRemembers(d1.(runtime := rt), f1, receipt, s);
    }
  }

  lemma PublishingRemembers(d: Daemon, f: Fence, p: Plan, regs: Registry, receipt: Option<Receipt>, s: Schedule)
    ensures d.heard <= Published(d, f, p, regs, receipt, s).0.heard
  {
    InterferenceIsHeartbeats(d, f, s.beforePublish, false);
    var (d1, f1) := Interfered(d, f, s.beforePublish, false);
    RollingBackRemembers(d1, f1, receipt, s);
    var (d2, f2) := Interfered(d1, f1.(permit := Committing), s.duringPublish, true);
    InterferenceIsHeartbeats(d1, f1.(permit := Committing), s.duringPublish, true);
    var (rt, after, ok) := AcceptedTransition(d2.runtime, receipt, s.accept);
    RollingBackRemembers(d2.(runtime := rt), DroppingGuard(f2), after, s);
  }

  lemma HandlingRemembers(d: Daemon, f: Fence, request: Request, s: Schedule, how: Rendering)
    ensures d.heard <= Handled(d, f, request, s, how).0.heard
  {
    hide AppliedTransition;
    hide Published;
    hide ProposalFor;
    PreparingIsHeartbeats(d, f, request, s);
    var x := ProposalFor(d, f, request, s);
    if x.Proposed? {
      TransitionRemembers(x.daemon, x.fence, x.plan, x.registrations, s, how);
      var a := AppliedTransition(x.daemon, x.fence, x.plan, x.registrations, s, how);
      PublishingRemembers(a.daemon, a.fence, a.plan, x.registrations, a.receipt, s);
    }
  }
}
