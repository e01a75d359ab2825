/** Heartbeats and registration transactions commute on everything but last heartbeats. */
module HeartbeatCommutation {
  import opened Wrappers
  import opened StringOrder
  import opened Registrations
  import opened Coordinator
  import opened OperationFences
  import opened RuntimeReceipts
  import opened DesiredState
  import opened DaemonTransactions
  import opened DaemonInvariants

  function WithoutHeartbeats(es: seq<EnvEvent>): seq<EnvEvent> {
    if es == [] then []
    else (if es[0].Heartbeat? then [] else [es[0]]) + WithoutHeartbeats(es[1..])
  }

  function Silenced(s: Schedule): Schedule {
    s.(beforeClone := WithoutHeartbeats(s.beforeClone), beforeTransition := WithoutHeartbeats(s.beforeTransition),
       beforePublish := WithoutHeartbeats(s.beforePublish), duringPublish := WithoutHeartbeats(s.duringPublish),
       beforeRollback := WithoutHeartbeats(s.beforeRollback))
  }

  lemma SilencedKeepsTheRest(s: Schedule)
    ensures var q := Silenced(s);
            && q.beforeTransition == WithoutHeartbeats(s.beforeTransition)
            && q.attemptedAt == s.attemptedAt && q.begin == s.begin && q.outcomeFails == s.outcomeFails
            && q.reloadedAt == s.reloadedAt
  {}

  /** Equal in everything but last heartbeats and the history of heartbeats. */
  ghost predicate SameApartFromHeartbeats(d: Daemon, e: Daemon) {
    && SameButHeartbeats(d.registrations, e.registrations)
    && e == d.(registrations := e.registrations, clock := e.clock, heard := e.heard)
  }

  lemma {:induction false} InterferedAlike(d: Daemon, e: Daemon, f: Fence, es: seq<EnvEvent>, locked: bool)
    requires SameApartFromHeartbeats(d, e)
    ensures SameApartFromHeartbeats(Interfered(d, f, es, locked).0, Interfered(e, f, WithoutHeartbeats(es), locked).0)
    ensures Interfered(d, f, es, locked).1 == Interfered(e, f, WithoutHeartbeats(es), locked).1
    decreases |es|
  {
    if es != [] {
      var (d1, f1) := Disturbed(d, f, es[0], locked);
      var rest := WithoutHeartbeats(es[1..]);
      if es[0].Heartbeat? {
        assert WithoutHeartbeats(es) == rest;
        InterferedAlike(d1, e, f1, es[1..], locked);
      } else {
        assert WithoutHeartbeats(es)[0] == es[0] && WithoutHeartbeats(es)[1..] == rest;
        InterferedAlike(d1, Disturbed(e, f, es[0], locked).0, f1, es[1..], locked);
      }
    }
  }

  lemma RolledBackAlike(d: Daemon, e: Daemon, f: Fence, receipt: Option<Receipt>, s: Schedule)
    requires SameApartFromHeartbeats(d, e)
    ensures SameApartFromHeartbeats(RolledBackTransition(d, f, receipt, s).0,
                                    RolledBackTransition(e, f, receipt, Silenced(s)).0)
    ensures RolledBackTransition(d, f, receipt, s).1 == RolledBackTransition(e, f, receipt, Silenced(s)).1
  {
    InterferedAlike(d, e, f, s.beforeRollback, false);
  }

  lemma {:induction false} PersistedAlike(t: Table, rs: seq<Registration>, other: seq<Registration>)
    requires Alike(rs, other)
    ensures Persisted(t, rs) == Persisted(t, other)
  {
    if rs != [] {
      var n := |rs| - 1;
      PersistedAlike(t, rs[..n], other[..n]);
    }
  }

  lemma MergedAlike(regs: Registry, a: Registry, b: Registry, table: Option<Table>, fails: bool)
    ensures SameButHeartbeats(Merged(regs, a), Merged(regs, b))
    ensures PersistedTable(table, Merged(regs, a), fails) == PersistedTable(table, Merged(regs, b), fails)
  {
    assert Merged(regs, a).Keys == regs.Keys == Merged(regs, b).Keys;
    ValuesAlike(Merged(regs, a), Merged(regs, b), Sorted(regs.Keys));
    if table.Some? {
      PersistedAlike(table.value, Values(Merged(regs, a)), Values(Merged(regs, b)));
    }
  }

  lemma AppliedTransitionAlike(d: Daemon, f: Fence, p: Plan, regs: Registry, s: Schedule, how: Rendering)
    ensures var a, b := AppliedTransition(d, f, p, regs, s, how), AppliedTransition(d, f, p, regs, Silenced(s), how);
            SameApartFromHeartbeats(a.daemon, b.daemon) && b == a.(daemon := b.daemon)
  {
    hide RolledBackTransition;
    hide BegunTransition;
    hide FinishedTransition;
    hide Interfered;
    hide BegunApply;
    hide Values;
    hide Silenced;
    SilencedKeepsTheRest(s);
    InterferedAlike(d, d, f, s.beforeTransition, false);
    var (d1, f1) := Interfered(d, f, s.beforeTransition, false);
    var e1 := Interfered(d, f, WithoutHeartbeats(s.beforeTransition), false).0;
    var (p1, action) := BegunApply(p, Values(regs), s.attemptedAt, how);
    if !action.Current? {
      var (rt, receipt) := BegunTransition(d1.runtime, action, s.begin);
      RolledBackAlike(d1.(runtime := rt), e1.(runtime := rt), f1, receipt, s);
    }
  }

  lemma GuardedPublishingAlike(d: Daemon, e: Daemon, f: Fence, p: Plan, regs: Registry, receipt: Option<Receipt>,
                               s: Schedule)
    requires SameApartFromHeartbeats(d, e)
    ensures var (a, fa, failure) := PublishedUnderGuard(d, f, p, Merged(regs, d.registrations), receipt, s);
            var (b, fb, other) := PublishedUnderGuard(e, f, p, Merged(regs, e.registrations), receipt, Silenced(s));
            SameApartFromHeartbeats(a, b) && fa == fb && failure == other
  {
    hide RolledBackTransition;
    hide AcceptedTransition;
    hide PersistedTable;
    hide Interfered;
    hide Merged;
    hide SameButHeartbeats;
    InterferedAlike(d, e, f, s.duringPublish, true);
    var (d2, f2) := Interfered(d, f, s.duringPublish, true);
    var e2 := Interfered(e, f, WithoutHeartbeats(s.duringPublish), true).0;
    var (rt, after, ok) := AcceptedTransition(d2.runtime, receipt, s.accept);
    RolledBackAlike(d2.(runtime := rt), e2.(runtime := rt), DroppingGuard(f2), after, s);
    MergedAlike(regs, d.registrations, e.registrations, d2.table, s.persistFails);
  }

  lemma PublishedAlike(d: Daemon, e: Daemon, f: Fence, p: Plan, regs: Registry, receipt: Option<Receipt>, s: Schedule)
    requires SameApartFromHeartbeats(d, e)
    ensures var (a, fa, failure) := Published(d, f, p, regs, receipt, s);
            var (b, fb, other) := Published(e, f, p, regs, receipt, Silenced(s));
            SameApartFromHeartbeats(a, b) && fa == fb && failure == other
  {
    hide RolledBackTransition;
    hide PublishedUnderGuard;
    hide Interfered;
    hide SameButHeartbeats;
    InterferedAlike(d, e, f, s.beforePublish, false);
    var (d1, f1) := Interfered(d, f, s.beforePublish, false);
    var e1 := Interfered(e, f, WithoutHeartbeats(s.beforePublish), false).0;
    RolledBackAlike(d1, e1, f1, receipt, s);
    GuardedPublishingAlike(d1, e1, f1.(permit := Committing), p, regs, receipt, s);
  }

  /**
   Heartbeats and a transaction commute: with every heartbeat taken out of its schedule, a
   transaction has the same outcome, fence, coordinator, stored state, runtime and lifecycle, and
   publishes the same registrations but for their last heartbeats.
   */
  lemma HeartbeatsCommute(d: Daemon, f: Fence, p: Plan, regs: Registry, s: Schedule, how: Rendering)
    ensures var (a, fa, failure) := Executed(d, f, p, regs, s, how);
            var (b, fb, other) := Executed(d, f, p, regs, Silenced(s), how);
            SameApartFromHeartbeats(a, b) && fa == fb && failure == other
  {
    hide AppliedTransition;
    hide Published;
    AppliedTransitionAlike(d, f, p, regs, s, how);
    var a, b := AppliedTransition(d, f, p, regs, s, how), AppliedTransition(d, f, p, regs, Silenced(s), how);
    PublishedAlike(a.daemon, b.daemon, a.fence, a.plan, regs, a.receipt, s);
  }
}
