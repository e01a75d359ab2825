/** The mutations a client can ask for, from admission to answer. */
module DaemonRequests {
  import opened Wrappers
  import opened Registrations
  import opened DomainOwnership
  import opened Json
  import opened Coordinator
  import opened OperationFences
  import opened DesiredState
  import opened DaemonTransactions

  /** What the adapter makes of a registration; its id and nonce are never touched. */
  datatype Adapted = Adapted(domains: seq<Domain>, routes: seq<Json>, diagnostics: seq<Diagnostic>)

  datatype Request =
    | Register(registration: Registration, adapted: Adapted)
    | Unregister(id: string, nonce: string)
    | Heartbeat(id: string, nonce: string, now: int)
    | SetEntrypointEnabled(id: string, onlyNonce: Option<string>, enabled: bool)
    | SetDomainEnabled(id: string, domainKey: string, enabled: bool)

  datatype Refusal =
    | InvalidOwner
    | ForeignOwner
    | DomainTaken(conflict: OwnershipConflict)
    | NotFound
    | RuntimeRejected
    | StorageRejected

  datatype Response = Accepted | Rejected(why: Refusal)

  type Handling = (Daemon, Fence, Result<Response, CommitRejection>)

  function AnswerTo(failure: Option<TransactionFailure>): Result<Response, CommitRejection> {
    match failure
    case None => Ok(Accepted)
    case Some(Fenced(rejection)) => Err(rejection)
    case Some(RuntimeFailed) => Ok(Rejected(RuntimeRejected))
    case Some(StorageFailed) => Ok(Rejected(StorageRejected))
  }

  /** `registration_has_different_owner`. */
  predicate HasDifferentOwner(regs: Registry, r: Registration) {
    r.id in regs && regs[r.id].nonce != r.nonce
  }

  function Lower(c: char): char {
    if 'A' <= c <= 'Z' then (c as int + 32) as char else c
  }

  predicate EqIgnoreAsciiCase(a: string, b: string) {
    |a| == |b| && forall i | 0 <= i < |a| :: Lower(a[i]) == Lower(b[i])
  }

  /** The first domain that matches the key takes the new state. */
  function WithDomain(domains: seq<Domain>, key: string, enabled: bool): Option<seq<Domain>> {
    if domains == [] then None
    else if EqIgnoreAsciiCase(domains[0].canonical, key) then
      Some([domains[0].(activation := ActivationState.FromEnabled(enabled))] + domains[1..])
    else
      var rest := WithDomain(domains[1..], key, enabled);
      if rest.None? then None else Some([domains[0]] + rest.value)
  }

  function Transacted(d: Daemon, f: Fence, p: Plan, regs: Registry, s: Schedule, how: Rendering): Handling {
    var (after, fence, failure) := Executed(d, f, p, regs, s, how);
    (after, fence, AnswerTo(failure))
  }

  /** What a request comes to before any transaction: an answer at once, or a candidate to publish. */
  datatype Preparation =
    | Settled(daemon: Daemon, fence: Fence, answer: Result<Response, CommitRejection>)
    | Proposed(daemon: Daemon, fence: Fence, plan: Plan, registrations: Registry)

  /** A registry change that must not take a domain from someone else. */
  function Checked(d: Daemon, f: Fence, p: Plan, regs: Registry, id: string, check: bool): Preparation {
    var conflict := if check then ActiveDomainOwnershipConflict(regs, id) else None;
    if conflict.Some? then Settled(d, f, Ok(Rejected(DomainTaken(conflict.value))))
    else Proposed(d, f, p, regs)
  }

  /** The registration that is published: prepared, restored from what is stored, and stamped. */
  function Stamped(d: Daemon, r: Registration, adapted: Adapted): Registration {
    var asked := r.(domains := adapted.domains);
    var restored := if d.table.Some? then RestoredFrom(d.table.value, asked) else asked;
    restored.(createdAt := d.clock, lastHeartbeat := d.clock)
  }

  function RegisterProposal(d: Daemon, f: Fence, r: Registration, adapted: Adapted, s: Schedule): Preparation {
    if !OwnerIsValid(r) then Settled(d, f, Ok(Rejected(InvalidOwner)))
    else if HasDifferentOwner(d.registrations, r) then Settled(d, f, Ok(Rejected(ForeignOwner)))
    else
      var (d1, f1) := Interfered(d, f, s.beforeClone, false);
      var prepared := Prepared(r.(domains := adapted.domains), adapted.routes, adapted.diagnostics);
      if HasDifferentOwner(d1.registrations, prepared.registration) then Settled(d1, f1, Ok(Rejected(ForeignOwner)))
      else if d1.table.Some? && s.restoreFails then Settled(d1, f1, Ok(Rejected(StorageRejected)))
      else
        var plan := CommittedPrepared(d1.plan, r.configPath, prepared, s.preparedAt);
        var d2 := Ticked(d1, s.preparedAt);
        Checked(d2, f1, plan, d2.registrations[r.id := Stamped(d2, r, adapted)], r.id, true)
  }

  function UnregisterProposal(d: Daemon, f: Fence, id: string, nonce: string, s: Schedule): Preparation {
    var (d1, f1) := Interfered(d, f, s.beforeClone, false);
    if Admission(d1.lifecycle, f1).Some? then Settled(d1, f1, Err(Admission(d1.lifecycle, f1).value))
    else if !OwnedBy(d1.registrations, id, nonce) then Settled(d1, f1, Ok(Rejected(NotFound)))
    else Proposed(d1, f1, d1.plan, d1.registrations - {id})
  }

  function HeartbeatProposal(d: Daemon, f: Fence, id: string, nonce: string, now: int, s: Schedule): Preparation {
    var (d1, f1) := Interfered(d, f, s.beforeClone, false);
    if Admission(d1.lifecycle, f1).Some? then Settled(d1, f1, Err(Admission(d1.lifecycle, f1).value))
    else
      Settled(Beaten(d1, id, nonce, now), f1.(permit := PermitState.Finalized),
              Ok(if OwnedBy(d1.registrations, id, nonce) then Accepted else Rejected(NotFound)))
  }

  function SetEntrypointProposal(d: Daemon, f: Fence, id: string, onlyNonce: Option<string>, enabled: bool, s: Schedule)
    : Preparation
  {
    var (d1, f1) := Interfered(d, f, s.beforeClone, false);
    if Admission(d1.lifecycle, f1).Some? then Settled(d1, f1, Err(Admission(d1.lifecycle, f1).value))
    else if id !in d1.registrations || (onlyNonce.Some? && d1.registrations[id].nonce != onlyNonce.value) then
      Settled(d1, f1, Ok(Rejected(NotFound)))
    else
      var changed := d1.registrations[id].(activation := ActivationState.FromEnabled(enabled));
      Checked(d1, f1, d1.plan, d1.registrations[id := changed], id, enabled)
  }

  function SetDomainProposal(d: Daemon, f: Fence, id: string, key: string, enabled: bool, s: Schedule): Preparation {
    var (d1, f1) := Interfered(d, f, s.beforeClone, false);
    if Admission(d1.lifecycle, f1).Some? then Settled(d1, f1, Err(Admission(d1.lifecycle, f1).value))
    else
      var domains := if id in d1.registrations then WithDomain(d1.registrations[id].domains, key, enabled) else None;
      if domains.None? then Settled(d1, f1, Ok(Rejected(NotFound)))
      else
        var changed := d1.registrations[id].(domains := domains.value);
        Checked(d1, f1, d1.plan, d1.registrations[id := changed], id, enabled)
  }

  function ProposalFor(d: Daemon, f: Fence, request: Request, s: Schedule): Preparation {
    match request
    case Register(r, adapted) => RegisterProposal(d, f, r, adapted, s)
    case Unregister(id, nonce) => UnregisterProposal(d, f, id, nonce, s)
    case Heartbeat(id, nonce, now) => HeartbeatProposal(d, f, id, nonce, now, s)
    case SetEntrypointEnabled(id, onlyNonce, enabled) => SetEntrypointProposal(d, f, id, onlyNonce, enabled, s)
    case SetDomainEnabled(id, key, enabled) => SetDomainProposal(d, f, id, key, enabled, s)
  }

  function Concluded(x: Preparation, s: Schedule, how: Rendering): Handling {
    match x
    case Settled(d, f, answer) => (d, f, answer)
    case Proposed(d, f, p, regs) => Transacted(d, f, p, regs, s, how)
  }

  /** A request from admission to answer: the `_fenced` operation that serves it. */
  function Handled(d: Daemon, f: Fence, request: Request, s: Schedule, how: Rendering): Handling {
    Concluded(ProposalFor(d, f, request, s), s, how)
  }

  // ---------------------------------------------------------------- before the transaction

  /** Until its transaction a request only lets others in; a settled one has at most recorded its heartbeat. */
  lemma PreparingIsHeartbeats(d: Daemon, f: Fence, request: Request, s: Schedule)
    ensures HeartbeatsOnly(d, ProposalFor(d, f, request, s).daemon)
  {
    hide Interfered;
    hide Stamped;
    hide WithDomain;
    hide CommittedPrepared;
    hide Admission;
    hide ActiveDomainOwnershipConflict;
    hide HeartbeatsOnly;
    var d1 := Interfered(d, f, s.beforeClone, false).0;
    InterferenceIsHeartbeats(d, f, s.beforeClone, false);
    NothingIsHeartbeats(d);
    TickingIsHeartbeats(d, d1, s.preparedAt);
    if request.Heartbeat? {
      BeatingIsHeartbeats(d, d1, request.id, request.nonce, request.now);
    }
  }

  /** Only a heartbeat is accepted without a transaction, and only it finalizes its fence by itself. */
  lemma SettlingIsRefusing(d: Daemon, f: Fence, request: Request, s: Schedule)
    requires f.permit.Active?
    ensures var x := ProposalFor(d, f, request, s);
            && (x.Proposed? ==> !request.Heartbeat? && Undecided(x.fence))
            && (x.Settled? && !request.Heartbeat? ==> Undecided(x.fence) && x.answer != Ok(Accepted))
  {
    hide Interfered;
    hide Stamped;
    hide WithDomain;
    hide CommittedPrepared;
    hide ActiveDomainOwnershipConflict;
    InterferenceAndTheFence(d, f, s.beforeClone, false);
  }
}
