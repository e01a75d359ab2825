/** What holds of the daemon in every state that any run of requests, interference and failures reaches. */
module DaemonRuns {
  import opened Wrappers
  import opened Registrations
  import opened DomainOwnership
  import opened ConfigComposition
  import opened Coordinator
  import opened OperationFences
  import opened RuntimeReceipts
  import opened DesiredState
  import opened DaemonTransactions
  import opened DaemonRequests
  import opened DaemonInvariants

  /** A step serves a request, under whatever fence it carries, or lets another task through in between. */
  datatype Step = Serve(fence: Fence, request: Request, s: Schedule) | Meanwhile(e: EnvEvent)

  /** A daemon as it starts: nothing registered, nothing running, no effective file, any stored state. */
  function Started(table: Option<Table>, clock: int): Daemon {
    Daemon(map[], Plan(map[], map[], IDLE_CONFIG), table, Runtime(false, 0, None, map[]), INITIAL_LIFECYCLE, false,
           clock, {})
  }

  /** What goes on between requests touches no request's fence. */
  const NOBODYS_FENCE := Fence(0, PermitState.Active, false)

  function Next(d: Daemon, step: Step, how: Rendering): Daemon {
    match step
    case Serve(f, request, s) => Handled(d, f, request, s, how).0
    case Meanwhile(e) => Interfered(d, NOBODYS_FENCE, [e], false).0
  }

  function Run(d: Daemon, steps: seq<Step>, how: Rendering): Daemon
    decreases |steps|
  {
    if steps == [] then d else Run(Next(d, steps[0], how), steps[1..], how)
  }

  lemma StartedInv(table: Option<Table>, clock: int, how: Rendering)
    ensures DaemonInv(Started(table, clock), how)
  {
    var d := Started(table, clock);
    assert forall k, h :: !Owns(d.registrations, k, h);
    assert !Troubled(d.registrations, d.plan.diagnostics) && Quiet(d.registrations);
  }

  lemma NextKeepsInv(d: Daemon, step: Step, how: Rendering)
    requires DaemonInv(d, how)
    ensures DaemonInv(Next(d, step, how), how)
  {
    hide Handled;
    match step
    case Serve(f, request, s) => HandlingKeepsInv(d, f, request, s, how);
    case Meanwhile(e) => InterferenceKeepsInv(d, NOBODYS_FENCE, [e], how);
  }

  lemma {:induction false} RunKeepsInv(d: Daemon, steps: seq<Step>, how: Rendering)
    requires DaemonInv(d, how)
    ensures DaemonInv(Run(d, steps, how), how)
    decreases |steps|
  {
    if steps != [] {
      NextKeepsInv(d, steps[0], how);
      RunKeepsInv(Next(d, steps[0], how), steps[1..], how);
    }
  }

  /** In every run no two enabled registrations share an enabled domain, and keys are ids. */
  lemma SingleOwnerInEveryRun(table: Option<Table>, clock: int, steps: seq<Step>, how: Rendering)
    ensures var regs := Run(Started(table, clock), steps, how).registrations;
            SingleOwner(regs) && KeysAreIds(regs)
  {
    StartedInv(table, clock, how);
    RunKeepsInv(Started(table, clock), steps, how);
  }

  /** Some enabled registration has adapter diagnostics. */
  ghost predicate Undeployable(regs: Registry, diagnostics: map<string, seq<Diagnostic>>) {
    exists k :: k in regs && regs[k].activation.IsEnabled() && k in diagnostics
  }

  /**
   Served equals published. In every run, unless a rollback has failed, the status tells exactly
   whether an enabled registration is undeployable or nothing is enabled; the hash is that of
   the effective file; under `Applied` that file is what the published registrations compose to.
   With a database, where domains are listed once, trouble is adapter diagnostics and nothing else.
   */
  lemma ServedEqualsPublished(table: Option<Table>, clock: int, steps: seq<Step>, how: Rendering)
    ensures var d := Run(Started(table, clock), steps, how);
            && (!d.shutdownRequested ==> Serves(d.registrations, d.plan, d.runtime, how))
            && (d.shutdownRequested ==> d.lifecycle.phase.Draining?)
            && (d.table.Some? ==>
                  (Troubled(d.registrations, d.plan.diagnostics) <==>
                   Undeployable(d.registrations, d.plan.diagnostics)))
  {
    StartedInv(table, clock, how);
    RunKeepsInv(Started(table, clock), steps, how);
    var d := Run(Started(table, clock), steps, how);
    if d.table.Some? {
      forall k | k in d.registrations ensures ListsEachOnce(d.registrations[k]) {
        DistinctDomainsAreListedOnce(d.registrations[k]);
      }
    }
  }

  lemma {:induction false} EntriesOfDistinct(domains: seq<Domain>, h: string)
    requires DistinctDomains(domains)
    ensures multiset(EnabledEntries(domains))[h] <= 1
  {
    if domains != [] {
      var n := |domains| - 1;
      EntriesOfDistinct(domains[..n], h);
      EntriesAreTheActiveDomains(domains[..n]);
      if domains[n].canonical == h {
        assert h !in EnabledEntries(domains[..n]);
      }
    }
  }

  lemma DistinctDomainsAreListedOnce(r: Registration)
    requires DistinctDomains(r.domains)
    ensures ListsEachOnce(r)
  {
    forall h ensures Listings(r, h) <= 1 { EntriesOfDistinct(r.domains, h); }
  }

  /**
   In every run routes and diagnostics partition the registered ids, and what is stored agrees with
   what is published.
   */
  lemma PublishedStateAgrees(table: Option<Table>, clock: int, steps: seq<Step>, how: Rendering)
    ensures var d := Run(Started(table, clock), steps, how);
            Partitioned(d.registrations, d.plan) && StoredAgrees(d.table, d.registrations)
  {
    StartedInv(table, clock, how);
    RunKeepsInv(Started(table, clock), steps, how);
  }

  /**
   When a configuration is to be applied, every enabled registration has routes: the placeholder is
   never composed.
   */
  lemma NoPlaceholders(d: Daemon, p: Plan, regs: Registry, now: int, how: Rendering)
    requires Candidate(d, p, regs)
    ensures var (p1, action) := BegunApply(p, Values(regs), now, how);
            action.Apply? ==> forall r | r in EnabledOnly(Values(regs)) :: r.id in p1.routes
  {
    BeginApplyDecides(p, regs, now, how);
    EnabledOnlyMembers(Values(regs));
    var (p1, action) := BegunApply(p, Values(regs), now, how);
    if action.Apply? {
      forall r | r in EnabledOnly(Values(regs)) ensures r.id in p1.routes { ValuesAreTheRange(regs, r); }
    }
  }

  /**
   In every run, whatever request comes next: if its transaction is to apply a configuration, every
   enabled registration of the candidate has routes, so the placeholder is never composed.
   */
  lemma NoRunComposesPlaceholders(table: Option<Table>, clock: int, steps: seq<Step>, f: Fence, request: Request,
                                  s: Schedule, how: Rendering)
    ensures var x := ProposalFor(Run(Started(table, clock), steps, how), f, request, s);
            x.Proposed? ==>
              var (p1, action) := BegunApply(x.plan, Values(x.registrations), s.attemptedAt, how);
              action.Apply? ==> forall r | r in EnabledOnly(Values(x.registrations)) :: r.id in p1.routes
  {
    hide ProposalFor;
    hide BegunApply;
    hide DaemonInv;
    hide Candidate;
    var d := Run(Started(table, clock), steps, how);
    StartedInv(table, clock, how);
    RunKeepsInv(Started(table, clock), steps, how);
    RequestsProposeCandidates(d, f, request, s, how);
    var x := ProposalFor(d, f, request, s);
    if x.Proposed? {
      NoPlaceholders(x.daemon, x.plan, x.registrations, s.attemptedAt, how);
    }
  }

  /** In every applied state of every run, every enabled registration has routes. */
  lemma AppliedMeansRouted(table: Option<Table>, clock: int, steps: seq<Step>, how: Rendering)
    ensures var d := Run(Started(table, clock), steps, how);
            !d.shutdownRequested && d.plan.current.status.Applied? ==>
              forall k | k in d.registrations && d.registrations[k].activation.IsEnabled() :: k in d.plan.routes
  {
    StartedInv(table, clock, how);
    RunKeepsInv(Started(table, clock), steps, how);
  }

  ghost predicate StaysRegistered(d: Daemon, steps: seq<Step>, how: Rendering, id: string)
    decreases |steps|
  {
    id in d.registrations && (steps == [] || StaysRegistered(Next(d, steps[0], how), steps[1..], how, id))
  }

  /** While an id stays registered its session nonce never changes. */
  lemma {:induction false} SessionsLast(d: Daemon, steps: seq<Step>, how: Rendering, id: string)
    requires DaemonInv(d, how) && StaysRegistered(d, steps, how, id)
    ensures id in Run(d, steps, how).registrations
    ensures Run(d, steps, how).registrations[id].nonce == d.registrations[id].nonce
    decreases |steps|
  {
    hide Handled;
    if steps != [] {
      NextKeepsInv(d, steps[0], how);
      match steps[0] {
        case Serve(f, request, s) => HandlingKeepsSessions(d, f, request, s, how);
        case Meanwhile(e) => InterferenceIsHeartbeats(d, NOBODYS_FENCE, [e], false);
      }
      SessionsLast(Next(d, steps[0], how), steps[1..], how, id);
    }
  }

  lemma {:induction false} RunRemembers(d: Daemon, steps: seq<Step>, how: Rendering)
    ensures d.heard <= Run(d, steps, how).heard
    decreases |steps|
  {
    hide Handled;
    if steps != [] {
      match steps[0] {
        case Serve(f, request, s) => HandlingRemembers(d, f, request, s, how);
        case Meanwhile(e) => InterferenceIsHeartbeats(d, NOBODYS_FENCE, [e], false);
      }
      RunRemembers(Next(d, steps[0], how), steps[1..], how);
    }
  }

  lemma AcceptedIsHeard(d: Daemon, f: Fence, id: string, nonce: string, now: int, s: Schedule, how: Rendering)
    ensures var (d1, _, answer) := Handled(d, f, Request.Heartbeat(id, nonce, now), s, how);
            answer == Ok(Accepted) ==> Heard(id, nonce, d1.clock) in d1.heard && now <= d1.clock
  {
    hide Interfered;
  }

  /**
   No heartbeat is lost. Once a heartbeat is answered with acceptance, whatever runs afterwards,
   anyone registered under that id and nonce is at least as fresh as that heartbeat.
   */
  lemma AcceptedHeartbeatsLast(table: Option<Table>, clock: int, steps: seq<Step>, f: Fence, id: string, nonce: string,
                               now: int, s: Schedule, later: seq<Step>, how: Rendering)
    ensures var d := Run(Started(table, clock), steps, how);
            var (d1, _, answer) := Handled(d, f, Request.Heartbeat(id, nonce, now), s, how);
            var end := Run(d1, later, how);
            answer == Ok(Accepted) && OwnedBy(end.registrations, id, nonce) ==>
              now <= end.registrations[id].lastHeartbeat
  {
    hide Handled;
    var d := Run(Started(table, clock), steps, how);
    StartedInv(table, clock, how);
    RunKeepsInv(Started(table, clock), steps, how);
    var (d1, _, answer) := Handled(d, f, Request.Heartbeat(id, nonce, now), s, how);
    HandlingKeepsInv(d, f, Request.Heartbeat(id, nonce, now), s, how);
    RunKeepsInv(d1, later, how);
    RunRemembers(d1, later, how);
    AcceptedIsHeard(d, f, id, nonce, now, s, how);
    assert answer == Ok(Accepted) ==> Heard(id, nonce, d1.clock) in Run(d1, later, how).heard;
  }
}
