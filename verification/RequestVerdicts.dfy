/** What every request is answered: by the registry it finds, its fence and its schedule alone. */
module RequestVerdicts {
  import opened Wrappers
  import opened StringOrder
  import opened Registrations
  import opened DomainOwnership
  import opened Coordinator
  import opened OperationFences
  import opened RuntimeReceipts
  import opened DesiredState
  import opened DaemonTransactions
  import opened DaemonRequests
  import opened DaemonInvariants
  import opened DaemonEffects
  import opened TransactionOutcomes
  import DaemonRuns

  // ---------------------------------------------------------------- what is asked for

  /** The registry that a request wants, as far as it makes sense; times are not part of the wish. */
  function WishOf(request: Request, d: Daemon): Registry {
    var regs := d.registrations;
    match request
    case Register(r, adapted) =>
      var asked := r.(domains := adapted.domains);
      regs[r.id := if d.table.Some? then RestoredFrom(d.table.value, asked) else asked]
    case Unregister(id, _) => regs - {id}
    case Heartbeat(_, _, _) => regs
    case SetEntrypointEnabled(id, _, enabled) =>
      if id !in regs then regs else regs[id := regs[id].(activation := ActivationState.FromEnabled(enabled))]
    case SetDomainEnabled(id, key, enabled) =>
      var domains := if id in regs then WithDomain(regs[id].domains, key, enabled) else None;
      if domains.None? then regs else regs[id := regs[id].(domains := domains.value)]
  }

  /** The registered ids that have diagnostics instead of routes once the request is done. */
  function DiagnosedAfter(request: Request, d: Daemon): set<string> {
    var ids := d.plan.diagnostics.Keys;
    if !request.Register? then ids
    else if request.adapted.diagnostics == [] then ids - {request.registration.id}
    else ids + {request.registration.id}
  }

  predicate SomeDomainMatches(domains: seq<Domain>, key: string) {
    exists i :: 0 <= i < |domains| && EqIgnoreAsciiCase(domains[i].canonical, key)
  }

  /** The request makes no sense for this registry, or no longer. */
  predicate NotFoundFor(request: Request, regs: Registry) {
    match request
    case Register(_, _) => false
    case Unregister(id, nonce) => !(id in regs && regs[id].nonce == nonce)
    case Heartbeat(id, nonce, _) => !(id in regs && regs[id].nonce == nonce)
    case SetEntrypointEnabled(id, onlyNonce, _) =>
      !(id in regs && (onlyNonce.None? || onlyNonce.value == regs[id].nonce))
    case SetDomainEnabled(id, key, _) => !(id in regs && SomeDomainMatches(regs[id].domains, key))
  }

  /** The change could take a domain from someone: whose change it is. */
  function MayTakeDomains(request: Request): Option<string> {
    match request
    case Register(r, _) => Some(r.id)
    case SetEntrypointEnabled(id, _, true) => Some(id)
    case SetDomainEnabled(id, _, true) => Some(id)
    case _ => None
  }

  ghost predicate TakesFromNobody(regs: Registry, id: string) {
    forall k, h | k != id && Owns(regs, id, h) :: !Owns(regs, k, h)
  }

  /** What the registry says against a request, before anything is tried. */
  function ObjectionTo(request: Request, d: Daemon, restoreFails: bool): Option<Refusal> {
    var taker, wish := MayTakeDomains(request), WishOf(request, d);
    if request.Register? && !OwnerIsValid(request.registration) then Some(InvalidOwner)
    else if request.Register? && request.registration.id in d.registrations
            && d.registrations[request.registration.id].nonce != request.registration.nonce then Some(ForeignOwner)
    else if request.Register? && d.table.Some? && restoreFails then Some(StorageRejected)
    else if NotFoundFor(request, d.registrations) then Some(NotFound)
    else if taker.Some? && ActiveDomainOwnershipConflict(wish, taker.value).Some? then
      Some(DomainTaken(ActiveDomainOwnershipConflict(wish, taker.value).value))
    else None
  }

  /** Everything that happens before the runtime is changed, taken together. */
  function FromTheStart(s: Schedule): Schedule {
    s.(beforeTransition := s.beforeClone + s.beforeTransition)
  }

  /** The answer to a request. */
  ghost function VerdictOn(d: Daemon, f: Fence, request: Request, s: Schedule): Result<Response, CommitRejection> {
    var objection, wish := ObjectionTo(request, d, s.restoreFails), WishOf(request, d);
    if !request.Register? && Told(d, f, s.beforeClone).Some? then Err(Told(d, f, s.beforeClone).value)
    else if objection.Some? then Ok(Rejected(objection.value))
    else if request.Heartbeat? then Ok(Accepted)
    else
      match OutcomeOf(d, f, ChangeFor(wish, DiagnosedAfter(request, d)), wish, FromTheStart(s))
      case None => Ok(Accepted)
      case Some(RuntimeFailed) => Ok(Rejected(RuntimeRejected))
      case Some(StorageFailed) => Ok(Rejected(StorageRejected))
      case Some(Fenced(rejection)) => Err(rejection)
  }

  // ---------------------------------------------------------------- times decide nothing

  predicate SameButTimes(a: Registration, b: Registration) {
    a == b.(createdAt := a.createdAt, lastHeartbeat := a.lastHeartbeat)
  }

  ghost predicate AlikeButTimes(a: Registry, b: Registry) {
    a.Keys == b.Keys && forall k | k in a :: SameButTimes(a[k], b[k])
  }

  lemma {:induction false} OwnersButTimes(a: Registry, b: Registry, keys: seq<string>, candidate: string)
    requires AlikeButTimes(a, b) && forall k | k in keys :: k in a
    ensures OwnersAmong(ValuesAt(a, keys), candidate) == OwnersAmong(ValuesAt(b, keys), candidate)
  {
    if keys != [] {
      OwnersButTimes(a, b, keys[1..], candidate);
      var x, y := ValuesAt(a, keys), ValuesAt(b, keys);
      assert x[0] == a[keys[0]] && y[0] == b[keys[0]] && ActiveDomains(x[0]) == ActiveDomains(y[0]);
      assert x[1..] == ValuesAt(a, keys[1..]) && y[1..] == ValuesAt(b, keys[1..]);
    }
  }

  lemma ConflictButTimes(a: Registry, b: Registry, candidate: string)
    requires AlikeButTimes(a, b)
    ensures ActiveDomainOwnershipConflict(a, candidate) == ActiveDomainOwnershipConflict(b, candidate)
  {
    OwnersButTimes(a, b, Sorted(a.Keys), candidate);
  }

  lemma OwnershipButTimes(a: Registry, b: Registry)
    requires AlikeButTimes(a, b)
    ensures forall k, h :: Owns(a, k, h) <==> Owns(b, k, h)
    ensures KeysAreIds(a) <==> KeysAreIds(b)
    ensures SingleOwner(a) <==> SingleOwner(b)
  {
    assert forall k | k in a :: ActiveDomains(a[k]) == ActiveDomains(b[k]);
  }

  lemma ChangeButTimes(a: Registry, b: Registry, diagnosed: set<string>)
    requires AlikeButTimes(a, b)
    ensures ChangeFor(a, diagnosed) == ChangeFor(b, diagnosed)
  {
    hide ListsEachOnce;
    assert forall k | k in a :: ActiveDomains(a[k]) == ActiveDomains(b[k]);
    forall k | k in a ensures ListsEachOnce(a[k]) <==> ListsEachOnce(b[k]) { ListingsButTimes(a[k], b[k]); }
  }

  lemma ListingsButTimes(r: Registration, other: Registration)
    requires SameButTimes(r, other)
    ensures ListsEachOnce(r) <==> ListsEachOnce(other)
  {
    assert forall h :: Listings(r, h) == Listings(other, h);
  }

  lemma StorageButTimes(t: Table, a: Registry, b: Registry)
    requires AlikeButTimes(a, b) && CanBeStored(t, a)
    ensures CanBeStored(t, b)
  {
    hide DistinctDomains;
    forall k | k in b ensures DistinctDomains(b[k].domains) && IdIsReleased(t, b, k) {
      forall d | d in t && d != b[k].workingDirectory && t[d].registrationId == k ensures WrittenBefore(b, k, d) {
        assert WrittenBefore(a, k, d);
      }
    }
  }

  lemma AlikeIsSymmetric(a: Registry, b: Registry)
    requires AlikeButTimes(a, b)
    ensures AlikeButTimes(b, a)
  {}

  lemma OutcomeButTimes(d: Daemon, f: Fence, a: Registry, b: Registry, diagnosed: set<string>, s: Schedule)
    requires AlikeButTimes(a, b)
    ensures OutcomeOf(d, f, ChangeFor(a, diagnosed), a, s) == OutcomeOf(d, f, ChangeFor(b, diagnosed), b, s)
  {
    hide ChangeFor;
    hide CanBeStored;
    hide AlikeButTimes;
    hide ReceiptIsObtained;
    hide AcceptanceWorks;
    hide Told;
    ChangeButTimes(a, b, diagnosed);
    AlikeIsSymmetric(a, b);
    if d.table.Some? {
      if CanBeStored(d.table.value, a) {
        StorageButTimes(d.table.value, a, b);
      }
      if CanBeStored(d.table.value, b) {
        StorageButTimes(d.table.value, b, a);
      }
    }
  }

  // ---------------------------------------------------------------- from a request to its wish

  /** What a request comes to before its transaction, if any, is what the registry says it should. */
  ghost predicate PreparesAsWished(d: Daemon, f: Fence, request: Request, s: Schedule) {
    var x, told, objection := ProposalFor(d, f, request, s), Told(d, f, s.beforeClone),
                              ObjectionTo(request, d, s.restoreFails);
    if !request.Register? && told.Some? then x.Settled? && x.answer == Err(told.value)
    else if objection.Some? then x.Settled? && x.answer == Ok(Rejected(objection.value))
    else if request.Heartbeat? then x.Settled? && x.answer == Ok(Accepted)
    else
      && x.Proposed? && AlikeButTimes(x.registrations, WishOf(request, d))
      && x.plan.diagnostics.Keys == DiagnosedAfter(request, d)
      && x.daemon.lifecycle == Interfered(d, f, s.beforeClone, false).0.lifecycle
      && x.fence == Interfered(d, f, s.beforeClone, false).1
  }

  lemma HeartbeatsAreTimes(a: Registry, b: Registry)
    requires SameButHeartbeats(a, b)
    ensures AlikeButTimes(a, b)
  {}

  /** Changing the same id alike keeps registries alike. */
  lemma AlikeAfterChange(a: Registry, b: Registry, id: string, x: Registration, y: Registration)
    requires AlikeButTimes(a, b) && SameButTimes(x, y)
    ensures AlikeButTimes(a[id := x], b[id := y])
  {}

  lemma RegisterAsWished(d: Daemon, f: Fence, r: Registration, adapted: Adapted, s: Schedule)
    ensures PreparesAsWished(d, f, Register(r, adapted), s)
  {
    hide Interfered;
    hide OwnerIsValid;
    hide RestoredFrom;
    hide ActiveDomainOwnershipConflict;
    hide AlikeButTimes;
    hide Told;
    InterferenceIsHeartbeats(d, f, s.beforeClone, false);
    var d1 := Interfered(d, f, s.beforeClone, false).0;
    HeartbeatsAreTimes(d1.registrations, d.registrations);
    var d2 := Ticked(d1, s.preparedAt);
    var wish := WishOf(Register(r, adapted), d);
    var candidate := d2.registrations[r.id := Stamped(d2, r, adapted)];
    RestoringKeepsTheId(d, r, adapted);
    AlikeAfterChange(d1.registrations, d.registrations, r.id, Stamped(d2, r, adapted), wish[r.id]);
    assert candidate == d1.registrations[r.id := Stamped(d2, r, adapted)]
        && wish == d.registrations[r.id := wish[r.id]];
    ConflictButTimes(candidate, wish, r.id);
  }

  lemma RestoringKeepsTheId(d: Daemon, r: Registration, adapted: Adapted)
    ensures Stamped(d, r, adapted).id == r.id
  {}

  lemma ChangeAsWished(before: Registry, start: Registry, id: string, x: Registration, y: Registration)
    requires SameButHeartbeats(before, start) && SameButTimes(x, y)
    ensures AlikeButTimes(before[id := x], start[id := y])
    ensures ActiveDomainOwnershipConflict(before[id := x], id) == ActiveDomainOwnershipConflict(start[id := y], id)
  {
    hide ActiveDomainOwnershipConflict;
    HeartbeatsAreTimes(before, start);
    AlikeAfterChange(before, start, id, x, y);
    ConflictButTimes(before[id := x], start[id := y], id);
  }

  lemma EntrypointAsWished(d: Daemon, f: Fence, id: string, onlyNonce: Option<string>, enabled: bool, s: Schedule)
    requires EpochsFit(d, f)
    ensures PreparesAsWished(d, f, SetEntrypointEnabled(id, onlyNonce, enabled), s)
  {
    hide Interfered;
    hide ActiveDomainOwnershipConflict;
    hide AlikeButTimes;
    hide Told;
    InterferenceIsTold(d, f, s.beforeClone);
    InterferenceIsHeartbeats(d, f, s.beforeClone, false);
    var before, start := Interfered(d, f, s.beforeClone, false).0.registrations, d.registrations;
    if id in start {
      ChangeAsWished(before, start, id, before[id].(activation := ActivationState.FromEnabled(enabled)),
                     start[id].(activation := ActivationState.FromEnabled(enabled)));
    }
  }

  lemma DomainAsWished(d: Daemon, f: Fence, id: string, key: string, enabled: bool, s: Schedule)
    requires EpochsFit(d, f)
    ensures PreparesAsWished(d, f, SetDomainEnabled(id, key, enabled), s)
  {
    hide Interfered;
    hide ActiveDomainOwnershipConflict;
    hide AlikeButTimes;
    hide Told;
    hide WithDomain;
    InterferenceIsTold(d, f, s.beforeClone);
    InterferenceIsHeartbeats(d, f, s.beforeClone, false);
    var before, start := Interfered(d, f, s.beforeClone, false).0.registrations, d.registrations;
    if id in start {
      WithDomainExactly(start[id].domains, key, enabled);
      var domains := WithDomain(start[id].domains, key, enabled);
      if domains.Some? {
        ChangeAsWished(before, start, id, before[id].(domains := domains.value), start[id].(domains := domains.value));
      }
    }
  }

  lemma RemovalAsWished(d: Daemon, f: Fence, id: string, nonce: string, s: Schedule)
    requires EpochsFit(d, f)
    ensures PreparesAsWished(d, f, Unregister(id, nonce), s)
  {
    hide Interfered;
    hide Told;
    InterferenceIsTold(d, f, s.beforeClone);
    InterferenceIsHeartbeats(d, f, s.beforeClone, false);
  }

  lemma RequestsPrepareAsWished(d: Daemon, f: Fence, request: Request, s: Schedule)
    requires EpochsFit(d, f)
    ensures PreparesAsWished(d, f, request, s)
  {
    hide PreparesAsWished;
    match request
    case Register(r, adapted) => RegisterAsWished(d, f, r, adapted, s);
    case Unregister(id, nonce) => RemovalAsWished(d, f, id, nonce, s);
    case Heartbeat(id, nonce, now) => BeatAsWished(d, f, id, nonce, now, s);
    case SetEntrypointEnabled(id, onlyNonce, enabled) => EntrypointAsWished(d, f, id, onlyNonce, enabled, s);
    case SetDomainEnabled(id, key, enabled) => DomainAsWished(d, f, id, key, enabled, s);
  }

  lemma BeatAsWished(d: Daemon, f: Fence, id: string, nonce: string, now: int, s: Schedule)
    requires EpochsFit(d, f)
    ensures PreparesAsWished(d, f, Request.Heartbeat(id, nonce, now), s)
  {
    hide Interfered;
    hide Told;
    InterferenceIsTold(d, f, s.beforeClone);
    InterferenceIsHeartbeats(d, f, s.beforeClone, false);
  }

  /** A transaction that starts after others have been let in ends as one that lets them in itself. */
  lemma OutcomeFromTheStart(d: Daemon, f: Fence, x: Preparation, change: Change, regs: Registry, s: Schedule)
    requires EpochsFit(d, f)
    requires x.daemon.lifecycle == Interfered(d, f, s.beforeClone, false).0.lifecycle
    requires x.fence == Interfered(d, f, s.beforeClone, false).1
    requires x.daemon.runtime == d.runtime && x.daemon.table == d.table
    ensures OutcomeOf(x.daemon, x.fence, change, regs, s) == OutcomeOf(d, f, change, regs, FromTheStart(s))
    ensures EpochsFit(x.daemon, x.fence)
  {
    hide Interfered;
    hide StorageWorks;
    hide ReceiptIsObtained;
    hide AcceptanceWorks;
    InterferenceIsTold(d, f, s.beforeClone);
    ToldInPortions(d, f, s.beforeClone, s.beforeTransition);
    ToldInPortions(d, f, s.beforeClone, s.beforeTransition + s.beforePublish);
    assert s.beforeClone + (s.beforeTransition + s.beforePublish)
        == (s.beforeClone + s.beforeTransition) + s.beforePublish;
  }

  /**
   Every request is answered by what it finds. From any sound daemon, under any schedule, the answer
   is the one that the registry, the fence and the schedule call for; when others drain, revoke or
   send heartbeats counts only before the guard, and times, rendering and digests count for nothing.
   */
  lemma AnsweredAsFound(d: Daemon, f: Fence, request: Request, s: Schedule, how: Rendering)
    requires DaemonInv(d, how) && EpochsFit(d, f)
    ensures Handled(d, f, request, s, how).2 == VerdictOn(d, f, request, s)
  {
    hide ProposalFor;
    hide Executed;
    hide DaemonInv;
    hide ObjectionTo;
    hide WishOf;
    hide DiagnosedAfter;
    hide OutcomeOf;
    hide ChangeFor;
    hide AlikeButTimes;
    hide Told;
    hide Interfered;
    hide FromTheStart;
    RequestsPrepareAsWished(d, f, request, s);
    var x := ProposalFor(d, f, request, s);
    if x.Proposed? {
      var diagnosed := DiagnosedAfter(request, d);
      PreparingIsHeartbeats(d, f, request, s);
      ProposalsCanBeExecuted(d, f, request, s, how);
      OutcomeFromTheStart(d, f, x, ChangeFor(x.registrations, diagnosed), x.registrations, s);
      ExecutedExactly(x.daemon, x.fence, x.plan, x.registrations, s, how);
      OutcomeButTimes(d, f, x.registrations, WishOf(request, d), diagnosed, FromTheStart(s));
    }
  }

  lemma ProposalsCanBeExecuted(d: Daemon, f: Fence, request: Request, s: Schedule, how: Rendering)
    requires DaemonInv(d, how)
    ensures var x := ProposalFor(d, f, request, s);
            x.Proposed? ==> KeysAreIds(x.registrations) && SingleOwner(x.registrations)
                            && forall k | k in x.plan.diagnostics :: x.plan.diagnostics[k] != []
  {
    hide ProposalFor;
    hide DaemonInv;
    RequestsProposeCandidates(d, f, request, s, how);
  }

  // ---------------------------------------------------------------- when a request is accepted

  /** The registry lets the request through: everything it names is there, and it takes no domain from anyone. */
  ghost predicate MayBeDone(request: Request, d: Daemon, restoreFails: bool) {
    var regs, wish := d.registrations, WishOf(request, d);
    match request
    case Register(r, _) =>
      && r.id == r.instanceId && r.nonce == r.ownerNonce
      && (exists c :: c in r.id && !IsWhitespace(c)) && (exists c :: c in r.nonce && !IsWhitespace(c))
      && (r.id in regs ==> regs[r.id].nonce == r.nonce)
      && (d.table.Some? ==> !restoreFails) && TakesFromNobody(wish, r.id)
    case Unregister(id, nonce) => OwnedBy(regs, id, nonce)
    case Heartbeat(id, nonce, _) => OwnedBy(regs, id, nonce)
    case SetEntrypointEnabled(id, onlyNonce, enabled) =>
      && id in regs && (onlyNonce.Some? ==> regs[id].nonce == onlyNonce.value)
      && (enabled ==> TakesFromNobody(wish, id))
    case SetDomainEnabled(id, key, enabled) =>
      && id in regs && SomeDomainMatches(regs[id].domains, key)
      && (enabled ==> TakesFromNobody(wish, id))
  }

  lemma WishKeepsKeys(request: Request, d: Daemon)
    requires KeysAreIds(d.registrations)
    ensures KeysAreIds(WishOf(request, d))
  {
    hide WithDomain;
  }

  lemma NoObjectionExactly(request: Request, d: Daemon, restoreFails: bool)
    requires KeysAreIds(d.registrations)
    ensures ObjectionTo(request, d, restoreFails).None? <==> MayBeDone(request, d, restoreFails)
  {
    hide WishOf;
    hide ActiveDomainOwnershipConflict;
    hide EqIgnoreAsciiCase;
    hide IsWhitespace;
    WishKeepsKeys(request, d);
    var taker := MayTakeDomains(request);
    if taker.Some? {
      OwnershipCheckIsExact(WishOf(request, d), taker.value);
      assert ActiveDomainOwnershipConflict(WishOf(request, d), taker.value).None? <==>
             TakesFromNobody(WishOf(request, d), taker.value);
    }
  }

  /**
   When a request is accepted: exactly when the registry lets it through, its fence was admitted and
   nobody revoked it or drained up to the guard, no call that changes the runtime failed, Caddy took
   the configuration, and what is published could be stored. A heartbeat needs no transaction.
   */
  lemma AcceptedExactly(d: Daemon, f: Fence, request: Request, s: Schedule, how: Rendering)
    requires DaemonInv(d, how) && EpochsFit(d, f)
    ensures var wish := WishOf(request, d);
            Handled(d, f, request, s, how).2 == Ok(Accepted) <==>
              && MayBeDone(request, d, s.restoreFails)
              && Admitted(d, f) && Harmless(s.beforeClone)
              && (!request.Heartbeat? ==>
                    && Harmless(s.beforeTransition) && Harmless(s.beforePublish)
                    && RuntimeWorks(d.runtime, ChangeFor(wish, DiagnosedAfter(request, d)), s)
                    && StorageWorks(d.table, wish, s.persistFails))
  {
    hide Handled;
    hide ObjectionTo;
    hide MayBeDone;
    hide WishOf;
    hide DiagnosedAfter;
    hide OutcomeOf;
    hide ChangeFor;
    hide StorageWorks;
    hide ReceiptIsObtained;
    hide AcceptanceWorks;
    AnsweredAsFound(d, f, request, s, how);
    NoObjectionExactly(request, d, s.restoreFails);
    NobodyToldMeansHarmless(d, f, s.beforeClone);
    NoOutcomeExactly(d, f, ChangeFor(WishOf(request, d), DiagnosedAfter(request, d)), WishOf(request, d),
                     FromTheStart(s));
    assert Harmless(s.beforeClone + s.beforeTransition) <==> Harmless(s.beforeClone) && Harmless(s.beforeTransition);
  }

  /** So it is in every run, for every fence that was ever issued. */
  lemma EveryRunAnswersAsFound(table: Option<Table>, clock: int, steps: seq<DaemonRuns.Step>, f: Fence,
                               request: Request, s: Schedule, how: Rendering)
    requires f.epoch == INITIAL_LIFECYCLE.number
    ensures var d := DaemonRuns.Run(DaemonRuns.Started(table, clock), steps, how);
            Handled(d, f, request, s, how).2 == VerdictOn(d, f, request, s)
  {
    hide Handled;
    hide VerdictOn;
    hide Serves;
    DaemonRuns.StartedInv(table, clock, how);
    DaemonRuns.RunKeepsInv(DaemonRuns.Started(table, clock), steps, how);
    AnsweredAsFound(DaemonRuns.Run(DaemonRuns.Started(table, clock), steps, how), f, request, s, how);
  }
}
