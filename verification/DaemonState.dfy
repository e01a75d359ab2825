/**
 The daemon's shared state and the `_fenced` operations that change it. Each carries out, on
 the live objects, what the value-level function of the same stage says; other tasks are let in
 through `Interfere` at the points where an operation waits.
 */
module DaemonStates {
  import opened Wrappers
  import opened StringOrder
  import opened Registrations
  import opened DomainOwnership
  import opened Coordinator
  import opened OperationFences
  import opened RuntimeReceipts
  import opened DesiredState
  import opened DaemonTransactions
  import opened DaemonRequests

  class DaemonState {
    const how: Rendering
    const lifecycle: LifecycleEpoch
    const runtime: MockCaddyRuntime
    const store: DesiredStateStore?
    var coordinator: CaddyConfigCoordinator
    var registrations: Registry
    var shutdownRequested: bool
    var clock: int
    ghost var heard: set<Heard>

    constructor (how: Rendering, lifecycle: LifecycleEpoch, runtime: MockCaddyRuntime, store: DesiredStateStore?,
                 now: int)
      ensures this.how == how && this.lifecycle == lifecycle && this.runtime == runtime && this.store == store
      ensures Valid() && fresh(coordinator)
      ensures View() == Daemon(map[], Plan(map[], map[], IDLE_CONFIG), if store == null then None else Some(store.rows),
                               runtime.View(), lifecycle.View(), false, now, {})
    {
      this.how, this.lifecycle, this.runtime, this.store := how, lifecycle, runtime, store;
      coordinator := new CaddyConfigCoordinator(how);
      registrations, shutdownRequested, clock, heard := map[], false, now, {};
    }

    ghost predicate Valid()
      reads this
    {
      coordinator.how == how
    }

    ghost function View(): Daemon
      reads this, lifecycle, runtime, store, coordinator
    {
      Daemon(registrations, coordinator.View(), if store == null then None else Some(store.rows),
             runtime.View(), lifecycle.View(), shutdownRequested, clock, heard)
    }

    // -------------------------------------------------------------- other tasks

    /** The registry update of a heartbeat. */
    method Beat(id: string, nonce: string, now: int)
      modifies this`registrations, this`clock, this`heard
      ensures View() == Beaten(old(View()), id, nonce, now)
    {
      clock := Max(clock, now);
      if id in registrations && registrations[id].nonce == nonce {
        registrations := registrations[id := registrations[id].(lastHeartbeat := clock)];
        heard := heard + {Heard(id, nonce, clock)};
      }
    }

    method Disturb(fence: OperationFence, e: EnvEvent, locked: bool)
      modifies this`registrations, this`clock, this`heard, lifecycle, fence.permit
      ensures (View(), fence.View()) == Disturbed(old(View()), old(fence.View()), e, locked)
    {
      match e {
        case Heartbeat(id, nonce, now) =>
          if !locked && !lifecycle.phase.Draining? {
            Beat(id, nonce, now);
          }
        case Revoke =>
          var _ := fence.TryRevoke();
        case BeginDrain =>
          var _ := lifecycle.BeginDrain();
      }
    }

    method Interfere(fence: OperationFence, es: seq<EnvEvent>, locked: bool)
      modifies this`registrations, this`clock, this`heard, lifecycle, fence.permit
      ensures (View(), fence.View()) == Interfered(old(View()), old(fence.View()), es, locked)
    {
      for i := 0 to |es|
        invariant Interfered(View(), fence.View(), es[i..], locked) ==
                  Interfered(old(View()), old(fence.View()), es, locked)
      {
        Disturb(fence, es[i], locked);
        assert es[i..][1..] == es[i + 1..];
      }
    }

    // -------------------------------------------------------------- the transaction

    /** `merge_live_heartbeats`. */
    method MergeLiveHeartbeats(candidate: Registry) returns (merged: Registry)
      ensures merged == Merged(candidate, registrations)
    {
      merged := candidate;
      var keys := Sorted(candidate.Keys);
      SortedHasNoRepeats(candidate.Keys);
      hide Sorted;
      for i := 0 to |keys|
        invariant merged.Keys == candidate.Keys
        invariant forall k | k in candidate ::
            merged[k] == if k in keys[..i] then MergedHeartbeat(candidate[k], registrations, k) else candidate[k]
      {
        var k := keys[i];
        assert keys[..i + 1] == keys[..i] + [k];
        assert k !in keys[..i];
        if k in registrations && merged[k].nonce == registrations[k].nonce {
          var latest := Max(merged[k].lastHeartbeat, registrations[k].lastHeartbeat);
          merged := merged[k := merged[k].(lastHeartbeat := latest)];
        }
      }
      assert keys[..|keys|] == keys;
    }

    method RollbackRuntimeTransition(fence: OperationFence, receipt: Option<Receipt>, s: Schedule)
      requires Valid()
      modifies this`registrations, this`clock, this`heard, this`shutdownRequested, lifecycle, runtime, fence.permit
      ensures (View(), fence.View()) == RolledBackTransition(old(View()), old(fence.View()), receipt, s)
    {
      Interfere(fence, s.beforeRollback, false);
      if receipt.Some? {
        var ok := runtime.Rollback(receipt.value, s.rollback);
        if !ok {
          var _ := lifecycle.BeginDrain();
          shutdownRequested := true;
        }
      }
    }

    method BeginTransition(action: ApplyAction, f: BeginFaults) returns (receipt: Option<Receipt>)
      requires !action.Current?
      modifies runtime
      ensures (runtime.View(), receipt) == BegunTransition(old(runtime.View()), action, f)
    {
      if action.Stop? {
        receipt := runtime.BeginStop(f);
      } else {
        receipt := runtime.BeginApplyConfig(action.rendered, f);
      }
    }

    method FinishTransition(candidate: CaddyConfigCoordinator, action: ApplyAction, reloadedAt: int)
      requires !action.Current?
      modifies candidate
      ensures candidate.View() == FinishedTransition(old(candidate.View()), action, reloadedAt)
    {
      if action.Stop? {
        candidate.FinishIdle(action.attempted);
      } else {
        candidate.FinishRuntimeApply(action.attempted, action.hash, action.sourceConfigPaths, true, reloadedAt);
      }
    }

    /** `apply_runtime_transition`, on a candidate coordinator that only this transaction sees. */
    method ApplyRuntimeTransition(candidate: CaddyConfigCoordinator, regs: Registry, fence: OperationFence, s: Schedule)
      returns (receipt: Option<Receipt>, failure: Option<TransactionFailure>)
      requires Valid() && candidate != coordinator && candidate.how == how && fence.lifecycle == lifecycle
      modifies this`registrations, this`clock, this`heard, this`shutdownRequested
      modifies lifecycle, runtime, fence.permit, candidate
      ensures Transition(View(), fence.View(), candidate.View(), receipt, failure) ==
              AppliedTransition(old(View()), old(fence.View()), old(candidate.View()), regs, s, how)
    {
      hide RolledBackTransition;
      hide BegunTransition;
      hide FinishedTransition;
      hide Interfered;
      hide BegunApply;
      hide Admission;
      Interfere(fence, s.beforeTransition, false);
      var action := candidate.BeginApply(Values(regs), s.attemptedAt);
      if action.Current? {
        return None, None;
      }
      var rejection := fence.Commit();
      if rejection.Some? {
        return None, Some(Fenced(rejection.value));
      }
      receipt := BeginTransition(action, s.begin);
      if receipt.None? {
        return None, Some(RuntimeFailed);
      }
      if s.outcomeFails {
        RollbackRuntimeTransition(fence, receipt, s);
        return None, Some(RuntimeFailed);
      }
      FinishTransition(candidate, action, s.reloadedAt);
      return receipt, None;
    }

    method AcceptTransition(receipt: Option<Receipt>, f: AcceptFaults) returns (after: Option<Receipt>, ok: bool)
      modifies runtime
      ensures (runtime.View(), after, ok) == AcceptedTransition(old(runtime.View()), receipt, f)
    {
      if receipt.None? {
        return None, true;
      }
      var next, accepted := runtime.Accept(receipt.value, f);
      return Some(next), accepted;
    }

    method PersistDesiredState(regs: Registry, fails: bool) returns (ok: bool)
      modifies store
      ensures var table := PersistedTable(if store == null then None else Some(old(store.rows)), regs, fails);
              && ok == table.Some?
              && (ok ==> table.value == if store == null then None else Some(store.rows))
              && (!ok && store != null ==> store.rows == old(store.rows))
    {
      if store == null {
        return true;
      }
      if fails {
        return false;
      }
      ok := store.PersistDesiredState(Values(regs));
    }

    /** Dropping the guard and rolling back, when acceptance or storage has failed. */
    method AbandonPublishing(fence: OperationFence, guard: FinalCommitGuard, receipt: Option<Receipt>, s: Schedule)
      requires Valid() && guard.permit == fence.permit && !guard.committed
      modifies this`registrations, this`clock, this`heard, this`shutdownRequested, lifecycle, runtime, fence.permit
      ensures (View(), fence.View()) == RolledBackTransition(old(View()), DroppingGuard(old(fence.View())), receipt, s)
    {
      hide RolledBackTransition;
      guard.Drop();
      assert fence.View() == DroppingGuard(old(fence.View()));
      RollbackRuntimeTransition(fence, receipt, s);
    }

    method PublishUnderGuard(candidate: CaddyConfigCoordinator, merged: Registry, fence: OperationFence,
                             guard: FinalCommitGuard, receipt: Option<Receipt>, s: Schedule)
      returns (failure: Option<TransactionFailure>)
      requires Valid() && candidate != coordinator && candidate.how == how && fence.lifecycle == lifecycle
      requires guard.permit == fence.permit && !guard.committed
      modifies this, lifecycle, runtime, store, fence.permit, guard
      ensures Valid() && coordinator in {old(coordinator), candidate}
      ensures (View(), fence.View(), failure) ==
              PublishedUnderGuard(old(View()), old(fence.View()), old(candidate.View()), merged, receipt, s)
    {
      hide RolledBackTransition;
      hide AcceptedTransition;
      hide PersistedTable;
      hide Interfered;
      hide DroppingGuard;
      Interfere(fence, s.duringPublish, true);
      var after, ok := AcceptTransition(receipt, s.accept);
      if !ok {
        AbandonPublishing(fence, guard, after, s);
        return Some(RuntimeFailed);
      }
      var stored := PersistDesiredState(merged, s.persistFails);
      if !stored {
        AbandonPublishing(fence, guard, after, s);
        return Some(StorageFailed);
      }
      coordinator := candidate;
      registrations := merged;
      guard.Commit();
      return None;
    }

    /** The publishing section of `execute_registration_transaction`. */
    method Publish(candidate: CaddyConfigCoordinator, regs: Registry, fence: OperationFence, receipt: Option<Receipt>,
                   s: Schedule)
      returns (failure: Option<TransactionFailure>)
      requires Valid() && candidate != coordinator && candidate.how == how && fence.lifecycle == lifecycle
      modifies this, lifecycle, runtime, store, fence.permit
      ensures Valid() && coordinator in {old(coordinator), candidate}
      ensures (View(), fence.View(), failure) ==
              Published(old(View()), old(fence.View()), old(candidate.View()), regs, receipt, s)
    {
      hide RolledBackTransition;
      hide PublishedUnderGuard;
      hide Interfered;
      hide Admission;
      hide Merged;
      Interfere(fence, s.beforePublish, false);
      var merged := MergeLiveHeartbeats(regs);
      var admitted := fence.BeginFinalCommit();
      if admitted.Err? {
        RollbackRuntimeTransition(fence, receipt, s);
        return Some(Fenced(admitted.error));
      }
      failure := PublishUnderGuard(candidate, merged, fence, admitted.value, receipt, s);
    }

    /** `execute_registration_transaction`: the candidate coordinator becomes the daemon's, or is dropped. */
    method ExecuteRegistrationTransaction(candidate: CaddyConfigCoordinator, regs: Registry, fence: OperationFence,
                                          s: Schedule)
      returns (failure: Option<TransactionFailure>)
      requires Valid() && candidate != coordinator && candidate.how == how && fence.lifecycle == lifecycle
      modifies this, lifecycle, runtime, store, fence.permit, candidate
      ensures Valid() && coordinator in {old(coordinator), candidate}
      ensures (View(), fence.View(), failure) ==
              Executed(old(View()), old(fence.View()), old(candidate.View()), regs, s, how)
    {
      hide AppliedTransition;
      hide Published;
      var receipt;
      receipt, failure := ApplyRuntimeTransition(candidate, regs, fence, s);
      if failure.Some? {
        return;
      }
      failure := Publish(candidate, regs, fence, receipt, s);
    }

    // -------------------------------------------------------------- requests

    /** Runs a transaction, unless a checked change would take a domain from someone else. */
    method TransactChecked(candidate: CaddyConfigCoordinator, regs: Registry, id: string, check: bool,
                           fence: OperationFence, s: Schedule)
      returns (response: Result<Response, CommitRejection>)
      requires Valid() && candidate != coordinator && candidate.how == how && fence.lifecycle == lifecycle
      modifies this, lifecycle, runtime, store, fence.permit, candidate
      ensures Valid() && coordinator in {old(coordinator), candidate}
      ensures (View(), fence.View(), response) ==
              Concluded(Checked(old(View()), old(fence.View()), old(candidate.View()), regs, id, check), s, how)
    {
      hide Executed;
      if check {
        var conflict := ActiveDomainOwnershipConflict(regs, id);
        if conflict.Some? {
          return Ok(Rejected(DomainTaken(conflict.value)));
        }
      }
      var failure := ExecuteRegistrationTransaction(candidate, regs, fence, s);
      return AnswerTo(failure);
    }

    method RegisterFenced(r: Registration, adapted: Adapted, fence: OperationFence, s: Schedule)
      returns (response: Result<Response, CommitRejection>)
      requires Valid() && fence.lifecycle == lifecycle
      modifies this, lifecycle, runtime, store, fence.permit
      ensures Valid() && (coordinator == old(coordinator) || fresh(coordinator))
      ensures (View(), fence.View(), response) ==
              Handled(old(View()), old(fence.View()), Register(r, adapted), s, how)
    {
      hide Transacted;
      hide Interfered;
      hide CommittedPrepared;
      hide RestoredFrom;
      hide Checked;
      if !OwnerIsValid(r) {
        return Ok(Rejected(InvalidOwner));
      }
      if HasDifferentOwner(registrations, r) {
        return Ok(Rejected(ForeignOwner));
      }
      Interfere(fence, s.beforeClone, false);
      var prepared := Prepared(r.(domains := adapted.domains), adapted.routes, adapted.diagnostics);
      if HasDifferentOwner(registrations, prepared.registration) {
        return Ok(Rejected(ForeignOwner));
      }
      var candidate := new CaddyConfigCoordinator.Clone(coordinator);
      var stored := candidate.CommitPreparedRegistration(r.configPath, prepared, s.preparedAt);
      if store != null {
        if s.restoreFails {
          return Ok(Rejected(StorageRejected));
        }
        stored := store.RestoreDesiredState(stored);
      }
      clock := Max(clock, s.preparedAt);
      stored := stored.(createdAt := clock, lastHeartbeat := clock);
      response := TransactChecked(candidate, registrations[r.id := stored], r.id, true, fence, s);
    }

    method UnregisterFenced(id: string, nonce: string, fence: OperationFence, s: Schedule)
      returns (response: Result<Response, CommitRejection>)
      requires Valid() && fence.lifecycle == lifecycle
      modifies this, lifecycle, runtime, store, fence.permit
      ensures Valid() && (coordinator == old(coordinator) || fresh(coordinator))
      ensures (View(), fence.View(), response) == Handled(old(View()), old(fence.View()), Unregister(id, nonce), s, how)
    {
      hide Executed;
      hide Interfered;
      Interfere(fence, s.beforeClone, false);
      var rejection := fence.Commit();
      if rejection.Some? {
        return Err(rejection.value);
      }
      if id !in registrations || registrations[id].nonce != nonce {
        return Ok(Rejected(NotFound));
      }
      var candidate := new CaddyConfigCoordinator.Clone(coordinator);
      var failure := ExecuteRegistrationTransaction(candidate, registrations - {id}, fence, s);
      return AnswerTo(failure);
    }

    method HeartbeatFenced(id: string, nonce: string, now: int, fence: OperationFence, s: Schedule)
      returns (response: Result<Response, CommitRejection>)
      requires Valid() && fence.lifecycle == lifecycle
      modifies this`registrations, this`clock, this`heard, lifecycle, fence.permit
      ensures Valid()
      ensures (View(), fence.View(), response) ==
              Handled(old(View()), old(fence.View()), Request.Heartbeat(id, nonce, now), s, how)
    {
      hide Transacted;
      hide Interfered;
      Interfere(fence, s.beforeClone, false);
      var admitted := fence.BeginFinalCommit();
      if admitted.Err? {
        return Err(admitted.error);
      }
      response := Ok(if id in registrations && registrations[id].nonce == nonce then Accepted else Rejected(NotFound));
      Beat(id, nonce, now);
      admitted.value.Commit();
    }

    method SetEntrypointEnabledFenced(id: string, onlyNonce: Option<string>, enabled: bool, fence: OperationFence,
                                      s: Schedule)
      returns (response: Result<Response, CommitRejection>)
      requires Valid() && fence.lifecycle == lifecycle
      modifies this, lifecycle, runtime, store, fence.permit
      ensures Valid() && (coordinator == old(coordinator) || fresh(coordinator))
      ensures (View(), fence.View(), response) ==
              Handled(old(View()), old(fence.View()), SetEntrypointEnabled(id, onlyNonce, enabled), s, how)
    {
      hide Transacted;
      hide Interfered;
      hide Checked;
      Interfere(fence, s.beforeClone, false);
      var rejection := fence.Commit();
      if rejection.Some? {
        return Err(rejection.value);
      }
      if id !in registrations || (onlyNonce.Some? && registrations[id].nonce != onlyNonce.value) {
        return Ok(Rejected(NotFound));
      }
      var candidate := new CaddyConfigCoordinator.Clone(coordinator);
      var changed := registrations[id].(activation := ActivationState.FromEnabled(enabled));
      response := TransactChecked(candidate, registrations[id := changed], id, enabled, fence, s);
    }

    method SetDomainEnabledFenced(id: string, key: string, enabled: bool, fence: OperationFence, s: Schedule)
      returns (response: Result<Response, CommitRejection>)
      requires Valid() && fence.lifecycle == lifecycle
      modifies this, lifecycle, runtime, store, fence.permit
      ensures Valid() && (coordinator == old(coordinator) || fresh(coordinator))
      ensures (View(), fence.View(), response) ==
              Handled(old(View()), old(fence.View()), SetDomainEnabled(id, key, enabled), s, how)
    {
      hide Transacted;
      hide Interfered;
      hide Checked;
      Interfere(fence, s.beforeClone, false);
      var rejection := fence.Commit();
      if rejection.Some? {
        return Err(rejection.value);
      }
      if id !in registrations {
        return Ok(Rejected(NotFound));
      }
      var domains := WithDomain(registrations[id].domains, key, enabled);
      if domains.None? {
        return Ok(Rejected(NotFound));
      }
      var candidate := new CaddyConfigCoordinator.Clone(coordinator);
      var changed := registrations[id].(domains := domains.value);
      response := TransactChecked(candidate, registrations[id := changed], id, enabled, fence, s);
    }
  }
}
