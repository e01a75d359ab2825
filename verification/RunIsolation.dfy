/** In every run, each host is served by the one registration that owns it. */
module RunIsolation {
  import opened Wrappers
  import opened StringOrder
  import opened Registrations
  import opened DomainOwnership
  import opened Json
  import opened ConfigComposition
  import opened Coordinator
  import OperationFences
  import opened DesiredState
  import opened DaemonTransactions
  import opened DaemonRequests
  import opened DaemonInvariants
  import opened DaemonRuns

  // ---------------------------------------------------------------- canonical names

  /** Every domain, enabled or not, is listed under its canonical name. */
  ghost predicate CanonicalDomains(domains: seq<Domain>, canon: string -> string) {
    forall i | 0 <= i < |domains| :: canon(domains[i].canonical) == domains[i].canonical
  }

  ghost predicate CanonicalRegistry(regs: Registry, canon: string -> string) {
    forall k | k in regs :: CanonicalDomains(regs[k].domains, canon)
  }

  /** What an adapter hands to a registration is canonical. */
  ghost predicate CanonicalRequest(request: Request, canon: string -> string) {
    request.Register? ==> CanonicalDomains(request.adapted.domains, canon)
  }

  ghost predicate CanonicalStep(step: Step, canon: string -> string) {
    step.Serve? ==> CanonicalRequest(step.request, canon)
  }

  lemma {:induction false} ChangingKeepsNames(domains: seq<Domain>, key: string, enabled: bool)
    ensures var after := WithDomain(domains, key, enabled);
            after.Some? ==> |after.value| == |domains|
                            && forall i | 0 <= i < |domains| :: after.value[i].canonical == domains[i].canonical
  {
    if domains != [] {
      ChangingKeepsNames(domains[1..], key, enabled);
    }
  }

  lemma StampingKeepsNames(d: Daemon, r: Registration, adapted: Adapted, canon: string -> string)
    requires CanonicalDomains(adapted.domains, canon)
    ensures CanonicalDomains(Stamped(d, r, adapted).domains, canon)
  {}

  lemma ProposalsAreCanonical(d: Daemon, f: OperationFences.Fence, request: Request, s: Schedule,
                              canon: string -> string)
    requires CanonicalRegistry(d.registrations, canon) && CanonicalRequest(request, canon)
    ensures var x := ProposalFor(d, f, request, s);
            x.Proposed? ==> CanonicalRegistry(x.registrations, canon)
  {
    hide Interfered;
    hide OperationFences.Admission;
    hide WithDomain;
    hide Stamped;
    hide CommittedPrepared;
    hide OwnerIsValid;
    hide ActiveDomainOwnershipConflict;
    var (d1, f1) := Interfered(d, f, s.beforeClone, false);
    InterferenceIsHeartbeats(d, f, s.beforeClone, false);
    match request
    case Register(r, adapted) => StampingKeepsNames(Ticked(d1, s.preparedAt), r, adapted, canon);
    case SetDomainEnabled(id, key, enabled) =>
      if id in d1.registrations {
        ChangingKeepsNames(d1.registrations[id].domains, key, enabled);
      }
    case _ =>
  }

  lemma NextKeepsCanonical(d: Daemon, step: Step, how: Rendering)
    requires CanonicalRegistry(d.registrations, how.canon) && CanonicalStep(step, how.canon)
    ensures CanonicalRegistry(Next(d, step, how).registrations, how.canon)
  {
    hide Executed;
    hide ProposalFor;
    hide Interfered;
    match step
    case Serve(f, request, s) =>
      PreparingIsHeartbeats(d, f, request, s);
      ProposalsAreCanonical(d, f, request, s, how.canon);
      var x := ProposalFor(d, f, request, s);
      if x.Proposed? {
        ExecutedRegistrations(x.daemon, x.fence, x.plan, x.registrations, s, how);
      }
    case Meanwhile(e) => InterferenceIsHeartbeats(d, NOBODYS_FENCE, [e], false);
  }

  lemma {:induction false} RunKeepsCanonical(d: Daemon, steps: seq<Step>, how: Rendering)
    requires CanonicalRegistry(d.registrations, how.canon)
    requires forall step | step in steps :: CanonicalStep(step, how.canon)
    ensures CanonicalRegistry(Run(d, steps, how).registrations, how.canon)
    decreases |steps|
  {
    hide Next;
    if steps != [] {
      NextKeepsCanonical(d, steps[0], how);
      RunKeepsCanonical(Next(d, steps[0], how), steps[1..], how);
    }
  }

  // ---------------------------------------------------------------- who serves whom

  lemma {:induction false} EnabledOnlyKeepsOrder(rs: seq<Registration>)
    requires DistinctIds(rs)
    ensures DistinctIds(EnabledOnly(rs))
  {
    if rs != [] {
      EnabledOnlyKeepsOrder(rs[1..]);
      EnabledOnlyMembers(rs[1..]);
      forall r | r in EnabledOnly(rs[1..]) ensures r.id != rs[0].id {
        var i :| 0 <= i < |rs[1..]| && rs[1..][i] == r;
        assert rs[i + 1] == r;
      }
    }
  }

  lemma PublishedIsComposable(regs: Registry, canon: string -> string)
    requires KeysAreIds(regs) && SingleOwner(regs) && forall k | k in regs :: NamesAreCanonical(regs[k], canon)
    ensures Composable(EnabledOnly(Values(regs)), canon)
  {
    var rs := EnabledOnly(Values(regs));
    ValuesHaveDistinctIds(regs);
    EnabledOnlyKeepsOrder(Values(regs));
    EnabledOnlyMembers(Values(regs));
    forall i | 0 <= i < |rs| ensures rs[i].id in regs && regs[rs[i].id] == rs[i] && rs[i].activation.IsEnabled() {
      assert rs[i] in rs;
      ValuesAreTheRange(regs, rs[i]);
    }
    forall i, j | 0 <= i < j < |rs| ensures ActiveDomains(rs[i]) !! ActiveDomains(rs[j]) {
      forall h | h in ActiveDomains(rs[i]) && h in ActiveDomains(rs[j]) ensures false {
        assert Owns(regs, rs[i].id, h) && Owns(regs, rs[j].id, h);
      }
    }
  }

  /** For host `h` the configuration leads to its owner's routes and to nobody else's, in both servers. */
  ghost predicate Isolates(config: Json, regs: Registry, routes: Routes, canon: string -> string, h: string) {
    var https, http := ServerRoutes(config, "cadder_https"), ServerRoutes(config, "cadder_http");
    && https.Arr? && http.Arr?
    && (forall k | Owns(regs, k, h) ::
          && ServedBy(https.items, h, canon) == Contribution(regs[k], routes, canon)
          && ServedBy(http.items, h, canon) == NamespacedOption(Contribution(regs[k], routes, canon))
          && Reached(https.items, h, canon) == RegistrationRoutes(regs[k], routes, canon)
          && Reached(http.items, h, canon) == NamespacedAll(RegistrationRoutes(regs[k], routes, canon), HTTP_NAMESPACE))
    && ((forall k :: !Owns(regs, k, h)) ==>
          ServedBy(https.items, h, canon) == None == ServedBy(http.items, h, canon))
  }

  lemma OwnersAreListed(regs: Registry, k: string) returns (i: nat)
    requires k in regs && regs[k].activation.IsEnabled()
    ensures var rs := EnabledOnly(Values(regs)); i < |rs| && rs[i] == regs[k]
  {
    hide EnabledOnly;
    hide Values;
    EnabledOnlyMembers(Values(regs));
    ValuesAreTheRange(regs, regs[k]);
    var rs := EnabledOnly(Values(regs));
    assert regs[k] in rs;
    i :| 0 <= i < |rs| && rs[i] == regs[k];
  }

  lemma PublishedIsolates(regs: Registry, routes: Routes, canon: string -> string, h: string)
    requires KeysAreIds(regs) && SingleOwner(regs) && forall k | k in regs :: NamesAreCanonical(regs[k], canon)
    ensures Isolates(Composed(EnabledOnly(Values(regs)), routes, canon), regs, routes, canon, h)
  {
    hide Composed;
    hide ServerRoutes;
    hide ServedBy;
    hide Reached;
    hide Contribution;
    hide RegistrationRoutes;
    hide NamespacedAll;
    hide EnabledOnly;
    hide Values;
    hide NamesAreCanonical;
    var rs := EnabledOnly(Values(regs));
    PublishedIsComposable(regs, canon);
    hide SingleOwner;
    hide Composable;
    CompositionIsolates(rs, routes, canon, h);
    EnabledOnlyMembers(Values(regs));
    forall k | Owns(regs, k, h)
      ensures exists i: nat :: i < |rs| && rs[i] == regs[k] && h in ActiveDomains(rs[i])
      ensures var https := ServerRoutes(Composed(rs, routes, canon), "cadder_https");
              var http := ServerRoutes(Composed(rs, routes, canon), "cadder_http");
              && https.Arr? && http.Arr?
              && Reached(https.items, h, canon) == RegistrationRoutes(regs[k], routes, canon)
              && Reached(http.items, h, canon) == NamespacedAll(RegistrationRoutes(regs[k], routes, canon),
                                                                HTTP_NAMESPACE)
    {
      var i := OwnersAreListed(regs, k);
      HostsReachTheirOwnersRoutes(rs, routes, canon, h, i);
    }
    if forall k :: !Owns(regs, k, h) {
      forall r | r in rs ensures h !in ActiveDomains(r) {
        ValuesAreTheRange(regs, r);
        var k :| k in regs && regs[k] == r;
        assert !Owns(regs, k, h);
      }
    }
  }

  /**
   Isolation in every run in which adapters hand over canonical names. In every applied state the
   effective file is a configuration in which each host leads to the surviving routes of the one
   enabled registration that owns it, and to their namespaced copies, and a host nobody owns goes
   nowhere.
   */
  lemma EveryRunIsolates(table: Option<Table>, clock: int, steps: seq<Step>, how: Rendering, h: string)
    requires forall step | step in steps :: CanonicalStep(step, how.canon)
    ensures var d := Run(Started(table, clock), steps, how);
            !d.shutdownRequested && d.plan.current.status.Applied? ==>
              exists config :: d.runtime.effective == Some(how.render(config))
                               && Isolates(config, d.registrations, d.plan.routes, how.canon, h)
  {
    hide Next;
    hide Isolates;
    hide Composed;
    var d := Run(Started(table, clock), steps, how);
    StartedInv(table, clock, how);
    RunKeepsInv(Started(table, clock), steps, how);
    RunKeepsCanonical(Started(table, clock), steps, how);
    forall k | k in d.registrations ensures NamesAreCanonical(d.registrations[k], how.canon) {
      CanonicalIsActiveCanonical(d.registrations[k], how.canon);
    }
    PublishedIsolates(d.registrations, d.plan.routes, how.canon, h);
  }

  lemma CanonicalIsActiveCanonical(r: Registration, canon: string -> string)
    requires CanonicalDomains(r.domains, canon)
    ensures NamesAreCanonical(r, canon)
  {}
}
