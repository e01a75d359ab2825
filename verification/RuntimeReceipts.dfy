/**
 The Caddy runtime as the daemon changes it: through a receipt that is either accepted or
 rolled back, with the effective configuration replaced only by promoting a staged file.
 Every fallible call takes its failure from a `...Faults` parameter, so that a statement
 about all faults is a statement about every way the calls can fail.
 */
module RuntimeReceipts {
  import opened Wrappers

  const CREATE_ATTEMPTS: nat := 8

  /** The runtime directory and the flags of `MockCaddyRuntimeState`. */
  datatype Runtime = Runtime(running: bool, applied: nat, effective: Option<Bytes>, candidates: map<string, Bytes>)

  /** `names` are the candidate names the generator yields before it fails. */
  datatype StageFaults = StageFaults(names: seq<string>, createFails: bool, writeFails: bool, removalFails: bool)

  datatype PromoteFault = Promoted | NotInstalled | NotFinalized

  datatype RemoveFault = Removed | NotRemoved | RemovalNotFinalized

  datatype BeginFaults = BeginFaults(readFails: bool, stage: StageFaults)

  datatype AcceptFaults = AcceptFaults(promote: PromoteFault, remove: RemoveFault)

  datatype RollbackFaults = RollbackFaults(stage: StageFaults, promote: PromoteFault, remove: RemoveFault,
                                           dropFails: bool)

  datatype Receipt =
    | ApplyReceipt(candidate: string, promoted: bool, previousConfig: Option<Bytes>,
                   previousRunning: bool, previousApplied: nat, appliedBytes: nat)
    | StopReceipt(previousConfig: Option<Bytes>, previousRunning: bool, previousApplied: nat)

  // ---------------------------------------------------------------- what each call does

  function FreshName(names: seq<string>, taken: set<string>, attempts: nat): Option<string> {
    if names == [] || attempts == 0 then None
    else if names[0] !in taken then Some(names[0])
    else FreshName(names[1..], taken, attempts - 1)
  }

  /** `StagedRuntimeConfig::drop` for a file that was not promoted. */
  function Dropped(rt: Runtime, candidate: string, removalFails: bool): Runtime {
    if removalFails then rt else rt.(candidates := rt.candidates - {candidate})
  }

  function Staged(rt: Runtime, rendered: Bytes, f: StageFaults): (Runtime, Option<string>) {
    var name := FreshName(f.names, rt.candidates.Keys, CREATE_ATTEMPTS);
    if name.None? || f.createFails then (rt, None)
    else if f.writeFails then
      (Dropped(rt.(candidates := rt.candidates[name.value := []]), name.value, f.removalFails), None)
    else (rt.(candidates := rt.candidates[name.value := rendered]), name)
  }

  /** `promote`: the file is in place as soon as it is installed, whether or not finalizing succeeds. */
  function Promotion(rt: Runtime, candidate: string, f: PromoteFault): (Runtime, bool) {
    if f.NotInstalled? || candidate !in rt.candidates then (rt, false)
    else (rt.(effective := Some(rt.candidates[candidate]), candidates := rt.candidates - {candidate}), f.Promoted?)
  }

  function Removal(rt: Runtime, f: RemoveFault): (Runtime, bool) {
    if rt.effective.None? then (rt, true)
    else if f.NotRemoved? then (rt, false)
    else (rt.(effective := None), f.Removed?)
  }

  /** `restore_effective_config`; the file it stages is dropped again if it cannot be installed. */
  function Restored(rt: Runtime, previous: Option<Bytes>, f: RollbackFaults): (Runtime, bool) {
    if previous.None? then Removal(rt, f.remove) else
    var (staged, name) := Staged(rt, previous.value, f.stage);
    if name.None? then (staged, false) else
    var (promoted, ok) := Promotion(staged, name.value, f.promote);
    if name.value in promoted.candidates then (Dropped(promoted, name.value, f.stage.removalFails), ok)
    else (promoted, ok)
  }

  function BegunApplyConfig(rt: Runtime, rendered: Bytes, f: BeginFaults): (Runtime, Option<Receipt>) {
    if f.readFails then (rt, None) else
    var (staged, name) := Staged(rt, rendered, f.stage);
    if name.None? then (staged, None)
    else (staged, Some(ApplyReceipt(name.value, false, rt.effective, rt.running, rt.applied, |rendered|)))
  }

  function BegunStop(rt: Runtime, f: BeginFaults): (Runtime, Option<Receipt>) {
    if f.readFails then (rt, None)
    else (rt.(running := false), Some(StopReceipt(rt.effective, rt.running, rt.applied)))
  }

  function Accepted(rt: Runtime, r: Receipt, f: AcceptFaults): (Runtime, Receipt, bool) {
    match r
    case ApplyReceipt(candidate, _, _, _, _, appliedBytes) =>
      var (next, ok) := Promotion(rt, candidate, f.promote);
      var installed := r.(promoted := candidate in rt.candidates && candidate !in next.candidates);
      if ok then (next.(running := true, applied := appliedBytes), installed, true) else (next, installed, false)
    case StopReceipt(_, _, _) =>
      var (next, ok) := Removal(rt, f.remove);
      (next, r, ok)
  }

  function RolledBack(rt: Runtime, r: Receipt, f: RollbackFaults): (Runtime, bool) {
    var (restored, ok) := Restored(rt, r.previousConfig, f);
    var next := if ok then restored.(running := r.previousRunning, applied := r.previousApplied) else restored;
    if r.ApplyReceipt? && !r.promoted then (Dropped(next, r.candidate, f.dropFails), ok) else (next, ok)
  }

  /** `apply_config`: whether it succeeded, and if not, whether what was there before is back. */
  function AppliedConfig(rt: Runtime, rendered: Bytes, begin: BeginFaults, outcomeFails: bool, accept: AcceptFaults,
                         rollback: RollbackFaults)
    : (Runtime, bool, bool)
  {
    var (begun, receipt) := BegunApplyConfig(rt, rendered, begin);
    if receipt.None? then (begun, false, true)
    else if outcomeFails then
      var (next, restored) := RolledBack(begun, receipt.value, rollback);
      (next, false, restored)
    else
      var (accepted, after, ok) := Accepted(begun, receipt.value, accept);
      if ok then (accepted, true, true)
      else
        var (next, restored) := RolledBack(accepted, after, rollback);
        (next, false, restored)
  }

  // ---------------------------------------------------------------- the runtime object

  class MockCaddyRuntime {
    var running: bool
    var applied: nat
    var effective: Option<Bytes>
    var candidates: map<string, Bytes>

    constructor (effective: Option<Bytes>)
      ensures View() == Runtime(false, 0, effective, map[])
    {
      this.running, this.applied, this.effective, this.candidates := false, 0, effective, map[];
    }

    ghost function View(): Runtime
      reads this
    {
      Runtime(running, applied, effective, candidates)
    }

    method CreateCandidate(names: seq<string>) returns (name: Option<string>)
      ensures name == FreshName(names, candidates.Keys, CREATE_ATTEMPTS)
    {
      var i := 0;
      while i < CREATE_ATTEMPTS && i < |names|
        invariant i <= |names| && i <= CREATE_ATTEMPTS
        invariant FreshName(names, candidates.Keys, CREATE_ATTEMPTS) ==
                  FreshName(names[i..], candidates.Keys, CREATE_ATTEMPTS - i)
      {
        if names[i] !in candidates {
          return Some(names[i]);
        }
        i := i + 1;
      }
      return None;
    }

    method DropStaged(candidate: string, removalFails: bool)
      modifies this`candidates
      ensures View() == Dropped(old(View()), candidate, removalFails)
    {
      if !removalFails {
        candidates := candidates - {candidate};
      }
    }

    method Stage(rendered: Bytes, f: StageFaults) returns (name: Option<string>)
      modifies this`candidates
      ensures (View(), name) == Staged(old(View()), rendered, f)
    {
      name := CreateCandidate(f.names);
      if name.None? || f.createFails {
        return None;
      }
      candidates := candidates[name.value := []];
      if f.writeFails {
        DropStaged(name.value, f.removalFails);
        return None;
      }
      candidates := candidates[name.value := rendered];
      assert candidates == old(candidates)[name.value := rendered];
    }

    method Promote(candidate: string, f: PromoteFault) returns (ok: bool)
      modifies this`effective, this`candidates
      ensures (View(), ok) == Promotion(old(View()), candidate, f)
    {
      if f.NotInstalled? || candidate !in candidates {
        return false;
      }
      effective := Some(candidates[candidate]);
      candidates := candidates - {candidate};
      return f.Promoted?;
    }

    method RemoveEffectiveConfig(f: RemoveFault) returns (ok: bool)
      modifies this`effective
      ensures (View(), ok) == Removal(old(View()), f)
    {
      if effective.None? {
        return true;
      }
      if f.NotRemoved? {
        return false;
      }
      effective := None;
      return f.Removed?;
    }

    method RestoreEffectiveConfig(previous: Option<Bytes>, f: RollbackFaults) returns (ok: bool)
      modifies this`effective, this`candidates
      ensures (View(), ok) == Restored(old(View()), previous, f)
    {
      if previous.None? {
        ok := RemoveEffectiveConfig(f.remove);
        return;
      }
      var name := Stage(previous.value, f.stage);
      if name.None? {
        return false;
      }
      ok := Promote(name.value, f.promote);
      if name.value in candidates {
        DropStaged(name.value, f.stage.removalFails);
      }
    }

    method BeginApplyConfig(rendered: Bytes, f: BeginFaults) returns (receipt: Option<Receipt>)
      modifies this`candidates
      ensures (View(), receipt) == BegunApplyConfig(old(View()), rendered, f)
    {
      if f.readFails {
        return None;
      }
      var name := Stage(rendered, f.stage);
      if name.None? {
        return None;
      }
      return Some(ApplyReceipt(name.value, false, effective, running, applied, |rendered|));
    }

    method BeginStop(f: BeginFaults) returns (receipt: Option<Receipt>)
      modifies this`running
      ensures (View(), receipt) == BegunStop(old(View()), f)
    {
      if f.readFails {
        return None;
      }
      receipt := Some(StopReceipt(effective, running, applied));
      running := false;
    }

    method Accept(r: Receipt, f: AcceptFaults) returns (after: Receipt, ok: bool)
      modifies this
      ensures (View(), after, ok) == Accepted(old(View()), r, f)
    {
      after := r;
      if r.ApplyReceipt? {
        var staged := r.candidate in candidates;
        ok := Promote(r.candidate, f.promote);
        after := r.(promoted := staged && r.candidate !in candidates);
        if ok {
          running, applied := true, r.appliedBytes;
        }
      } else {
        ok := RemoveEffectiveConfig(f.remove);
      }
    }

    method Rollback(r: Receipt, f: RollbackFaults) returns (ok: bool)
      modifies this
      ensures (View(), ok) == RolledBack(old(View()), r, f)
    {
      ok := RestoreEffectiveConfig(r.previousConfig, f);
      if ok {
        running, applied := r.previousRunning, r.previousApplied;
      }
      if r.ApplyReceipt? && !r.promoted {
        DropStaged(r.candidate, f.dropFails);
      }
    }

    method ApplyConfig(rendered: Bytes, begin: BeginFaults, outcomeFails: bool, accept: AcceptFaults,
                       rollback: RollbackFaults)
      returns (ok: bool, restored: bool)
      modifies this
      ensures (View(), ok, restored) == AppliedConfig(old(View()), rendered, begin, outcomeFails, accept, rollback)
    {
      hide BegunApplyConfig;
      hide Accepted;
      hide RolledBack;
      var receipt := BeginApplyConfig(rendered, begin);
      if receipt.None? {
        return false, true;
      }
      if outcomeFails {
        restored := Rollback(receipt.value, rollback);
        return false, restored;
      }
      var after;
      after, ok := Accept(receipt.value, accept);
      restored := true;
      if !ok {
        restored := Rollback(after, rollback);
      }
    }
  }

  // ---------------------------------------------------------------- what a receipt guarantees

  /** The two runtimes run and serve the same thing; staged files aside. */
  predicate SameService(a: Runtime, b: Runtime) {
    a.running == b.running && a.applied == b.applied && a.effective == b.effective
  }

  lemma {:induction false} FreshNameIsFresh(names: seq<string>, taken: set<string>, attempts: nat)
    ensures var name := FreshName(names, taken, attempts); name.Some? ==> name.value !in taken && name.value in names
  {
    if names != [] && attempts > 0 {
      FreshNameIsFresh(names[1..], taken, attempts - 1);
    }
  }

  /** Restoring either brings the wanted file back or says that it did not; a promoted file leaves no candidate. */
  lemma RestoredBringsBack(rt: Runtime, previous: Option<Bytes>, f: RollbackFaults)
    ensures var (next, ok) := Restored(rt, previous, f);
            && next.running == rt.running && next.applied == rt.applied
            && (ok ==> next.effective == previous)
            && (!f.stage.removalFails ==> next.candidates == rt.candidates)
  {
    FreshNameIsFresh(f.stage.names, rt.candidates.Keys, CREATE_ATTEMPTS);
    var name := FreshName(f.stage.names, rt.candidates.Keys, CREATE_ATTEMPTS);
    if name.Some? && previous.Some? {
      assert rt.candidates[name.value := []] - {name.value} == rt.candidates;
      assert rt.candidates[name.value := previous.value] - {name.value} == rt.candidates;
    }
  }

  /** A receipt that could not be obtained has changed nothing. */
  lemma NoReceiptNoChange(rt: Runtime, rendered: Bytes, f: BeginFaults)
    ensures var (next, receipt) := BegunApplyConfig(rt, rendered, f);
            receipt.None? ==> SameService(next, rt) && (!f.stage.removalFails ==> next.candidates == rt.candidates)
    ensures var (next, receipt) := BegunStop(rt, f); receipt.None? ==> next == rt
  {
    FreshNameIsFresh(f.stage.names, rt.candidates.Keys, CREATE_ATTEMPTS);
    var name := FreshName(f.stage.names, rt.candidates.Keys, CREATE_ATTEMPTS);
    if name.Some? {
      assert rt.candidates[name.value := []] - {name.value} == rt.candidates;
    }
  }

  /** Where a transition stands when its receipt is rolled back: begun, or accepted in vain at some point. */
  ghost predicate InTransition(before: Runtime, now: Runtime, r: Receipt) {
    && r.previousConfig == before.effective
    && r.previousRunning == before.running && r.previousApplied == before.applied
    && match r
       case ApplyReceipt(candidate, promoted, _, _, _, _) =>
         candidate !in before.candidates
         && (promoted ==> now.candidates == before.candidates)
         && (!promoted ==> candidate in now.candidates && now.candidates - {candidate} == before.candidates)
       case StopReceipt(_, _, _) => now.candidates == before.candidates
  }

  lemma BeginningIsATransition(rt: Runtime, rendered: Bytes, f: BeginFaults)
    ensures var (next, receipt) := BegunApplyConfig(rt, rendered, f);
            receipt.Some? ==> InTransition(rt, next, receipt.value) && !receipt.value.promoted
                              && next.candidates[receipt.value.candidate] == rendered
                              && receipt.value.appliedBytes == |rendered|
    ensures var (next, receipt) := BegunStop(rt, f);
            receipt.Some? ==> InTransition(rt, next, receipt.value) && !next.running && next.effective == rt.effective
  {
    FreshNameIsFresh(f.stage.names, rt.candidates.Keys, CREATE_ATTEMPTS);
    var name := FreshName(f.stage.names, rt.candidates.Keys, CREATE_ATTEMPTS);
    if name.Some? {
      assert rt.candidates[name.value := rendered] - {name.value} == rt.candidates;
    }
  }

  /** Accepting, whether or not it succeeds, leaves a transition that can still be rolled back. */
  lemma AcceptingStaysATransition(before: Runtime, rt: Runtime, r: Receipt, f: AcceptFaults)
    requires InTransition(before, rt, r) && (r.ApplyReceipt? ==> !r.promoted)
    ensures var (next, after, ok) := Accepted(rt, r, f);
            && InTransition(before, next, after)
            && (ok && r.ApplyReceipt? ==>
                  next == Runtime(true, r.appliedBytes, Some(rt.candidates[r.candidate]), before.candidates))
            && (ok && r.StopReceipt? ==> next == rt.(effective := None))
  {}

  /**
   Rolling back a transition, wherever acceptance stopped, either restores what ran and was
   served before, or reports its failure; no staged file is left unless its removal failed.
   */
  lemma RollbackRestores(before: Runtime, rt: Runtime, r: Receipt, f: RollbackFaults)
    requires InTransition(before, rt, r)
    ensures var (next, ok) := RolledBack(rt, r, f);
            && (ok ==> SameService(next, before))
            && (!f.stage.removalFails && !f.dropFails ==> next.candidates == before.candidates)
  {
    RestoredBringsBack(rt, r.previousConfig, f);
  }

  /** Applying a configuration is all or nothing, unless the rollback reports that it failed. */
  lemma ApplyConfigIsAllOrNothing(rt: Runtime, rendered: Bytes, begin: BeginFaults, outcomeFails: bool,
                                  accept: AcceptFaults, rollback: RollbackFaults)
    ensures var (next, ok, restored) := AppliedConfig(rt, rendered, begin, outcomeFails, accept, rollback);
            && (ok ==> next == Runtime(true, |rendered|, Some(rendered), rt.candidates))
            && (!ok && restored ==> SameService(next, rt))
            && (!begin.stage.removalFails && !rollback.stage.removalFails && !rollback.dropFails ==>
                next.candidates == rt.candidates)
  {
    hide BegunApplyConfig;
    hide Accepted;
    hide RolledBack;
    var (begun, receipt) := BegunApplyConfig(rt, rendered, begin);
    NoReceiptNoChange(rt, rendered, begin);
    BeginningIsATransition(rt, rendered, begin);
    if receipt.Some? {
      RollbackRestores(rt, begun, receipt.value, rollback);
      AcceptingStaysATransition(rt, begun, receipt.value, accept);
      BegunReceiptIsApply(rt, rendered, begin);
      RollbackRestores(rt, Accepted(begun, receipt.value, accept).0, Accepted(begun, receipt.value, accept).1,
                       rollback);
    }
  }

  lemma BegunReceiptIsApply(rt: Runtime, rendered: Bytes, f: BeginFaults)
    ensures var receipt := BegunApplyConfig(rt, rendered, f).1; receipt.Some? ==> receipt.value.ApplyReceipt?
  {}

  // ---------------------------------------------------------------- when a call succeeds

  /** Among the names that staging may try, one is free. */
  ghost predicate NameIsFree(names: seq<string>, taken: set<string>, attempts: nat) {
    exists i :: 0 <= i < |names| && i < attempts && names[i] !in taken
  }

  ghost predicate FirstFree(names: seq<string>, taken: set<string>, i: nat) {
    i < |names| && names[i] !in taken && forall j | 0 <= j < i :: names[j] in taken
  }

  /** The name found is the first free one. */
  lemma {:induction false} FreshNameIsFirst(names: seq<string>, taken: set<string>, attempts: nat)
    ensures var name := FreshName(names, taken, attempts);
            name.Some? ==> exists i: nat :: i < attempts && FirstFree(names, taken, i) && name.value == names[i]
  {
    if names != [] && attempts > 0 {
      FreshNameIsFirst(names[1..], taken, attempts - 1);
      if names[0] !in taken {
        assert FirstFree(names, taken, 0);
      } else if FreshName(names, taken, attempts).Some? {
        var i: nat :| i < attempts - 1 && FirstFree(names[1..], taken, i)
                      && FreshName(names, taken, attempts).value == names[1..][i];
        assert FirstFree(names, taken, i + 1);
      }
    }
  }

  lemma {:induction false} FreshNameExactly(names: seq<string>, taken: set<string>, attempts: nat)
    ensures FreshName(names, taken, attempts).Some? <==> NameIsFree(names, taken, attempts)
  {
    if names != [] && attempts > 0 {
      FreshNameExactly(names[1..], taken, attempts - 1);
      if NameIsFree(names[1..], taken, attempts - 1) {
        var i :| 0 <= i < |names[1..]| && i < attempts - 1 && names[1..][i] !in taken;
        assert names[i + 1] !in taken;
      }
      if NameIsFree(names, taken, attempts) && names[0] in taken {
        var i :| 0 <= i < |names| && i < attempts && names[i] !in taken;
        assert names[1..][i - 1] !in taken;
      }
    }
  }

  /** A file can be staged: a name is free among the first eight, it is created, and it is written. */
  ghost predicate StagingWorks(rt: Runtime, f: StageFaults) {
    NameIsFree(f.names, rt.candidates.Keys, 8) && !f.createFails && !f.writeFails
  }

  lemma StagedExactly(rt: Runtime, rendered: Bytes, f: StageFaults)
    ensures Staged(rt, rendered, f).1.Some? <==> StagingWorks(rt, f)
  {
    FreshNameExactly(f.names, rt.candidates.Keys, CREATE_ATTEMPTS);
  }

  /** A receipt is obtained exactly when what is served could be read and, to apply, a file could be staged. */
  lemma ReceiptsExactly(rt: Runtime, rendered: Bytes, f: BeginFaults)
    ensures BegunApplyConfig(rt, rendered, f).1.Some? <==> !f.readFails && StagingWorks(rt, f.stage)
    ensures BegunStop(rt, f).1.Some? <==> !f.readFails
  {
    StagedExactly(rt, rendered, f.stage);
  }

  /** Accepting succeeds exactly when its file is installed and finalized, or there was nothing to remove. */
  lemma AcceptsExactly(before: Runtime, rt: Runtime, r: Receipt, f: AcceptFaults)
    requires InTransition(before, rt, r) && (r.ApplyReceipt? ==> !r.promoted)
    ensures r.ApplyReceipt? ==> (Accepted(rt, r, f).2 <==> f.promote.Promoted?)
    ensures r.StopReceipt? ==> (Accepted(rt, r, f).2 <==> rt.effective.None? || f.remove.Removed?)
  {}

  /** What a rollback needs: with a previous file, to stage and promote it; without one, to remove what there is. */
  ghost predicate RestoringWorks(rt: Runtime, previous: Option<Bytes>, f: RollbackFaults) {
    if previous.None? then rt.effective.None? || f.remove.Removed?
    else StagingWorks(rt, f.stage) && f.promote.Promoted?
  }

  /** A rollback succeeds exactly when the previous file can be restored; dropping its candidate cannot fail it. */
  lemma RollbackExactly(rt: Runtime, r: Receipt, f: RollbackFaults)
    ensures RolledBack(rt, r, f).1 <==> RestoringWorks(rt, r.previousConfig, f)
  {
    if r.previousConfig.Some? {
      StagedExactly(rt, r.previousConfig.value, f.stage);
    }
  }

  /** Applying a configuration succeeds exactly when no call on its way fails and the outcome is good. */
  lemma ApplyConfigExactly(rt: Runtime, rendered: Bytes, begin: BeginFaults, outcomeFails: bool, accept: AcceptFaults,
                           rollback: RollbackFaults)
    ensures AppliedConfig(rt, rendered, begin, outcomeFails, accept, rollback).1 <==>
            !begin.readFails && StagingWorks(rt, begin.stage) && !outcomeFails && accept.promote.Promoted?
  {
    hide BegunApplyConfig;
    hide Accepted;
    hide RolledBack;
    hide StagingWorks;
    hide InTransition;
    ReceiptsExactly(rt, rendered, begin);
    BeginningIsATransition(rt, rendered, begin);
    BegunReceiptIsApply(rt, rendered, begin);
    var (begun, receipt) := BegunApplyConfig(rt, rendered, begin);
    if receipt.Some? {
      AcceptsExactly(rt, begun, receipt.value, accept);
    }
  }

  /**
   Why a failed acceptance has to be rolled back: if only its last step failed, the new file is
   already in place, or the old one gone, while nothing is marked as running; if its first step
   failed, what was effective still is.
   */
  lemma AcceptedInVain(rt: Runtime, rendered: Bytes, begin: BeginFaults, accept: AcceptFaults)
    ensures var (now, receipt) := BegunApplyConfig(rt, rendered, begin);
            receipt.Some? && !accept.promote.Promoted? ==>
              var (next, after, ok) := Accepted(now, receipt.value, accept);
              && !ok && next.running == rt.running && next.applied == rt.applied
              && next.effective == (if accept.promote.NotFinalized? then Some(rendered) else rt.effective)
              && (after.promoted <==> accept.promote.NotFinalized?)
    ensures var (now, receipt) := BegunStop(rt, begin);
            receipt.Some? && rt.effective.Some? && !accept.remove.Removed? ==>
              var (next, _, ok) := Accepted(now, receipt.value, accept);
              !ok && !next.running
              && next.effective == (if accept.remove.RemovalNotFinalized? then None else rt.effective)
  {
    BeginningIsATransition(rt, rendered, begin);
  }
}
