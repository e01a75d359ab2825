/** The coordinator that decides what Caddy should run: nothing new, nothing at all, or a new configuration. */
module Coordinator {
  import opened Wrappers
  import opened StringOrder
  import opened Registrations
  import opened DomainOwnership
  import opened Json
  import opened ConfigComposition

  datatype ConfigStatus = Unknown | NotApplied | Applied | Failed | Idle

  datatype ConfigState = ConfigState(
    status: ConfigStatus,
    attemptedAt: Option<int>,
    reloadedAt: Option<int>,
    hash: Option<string>,
    diagnostics: seq<Diagnostic>)

  const IDLE_CONFIG := ConfigState(Idle, None, None, None, [])

  /** Canonicalization, serialization and digest, of which the model assumes nothing. */
  datatype Rendering = Rendering(canon: string -> string, render: Json -> Bytes, digest: Bytes -> string)

  /** What an adapter returns for a registration: its routes, or diagnostics. */
  datatype Prepared = Prepared(registration: Registration, routes: seq<Json>, diagnostics: seq<Diagnostic>)

  datatype ApplyAction =
    | Current(state: ConfigState)
    | Stop(attempted: int)
    | Apply(attempted: int, rendered: Bytes, hash: string, sourceConfigPaths: seq<string>)

  datatype Plan = Plan(routes: Routes, diagnostics: map<string, seq<Diagnostic>>, current: ConfigState)

  function WithPath(ds: seq<Diagnostic>, path: string): seq<Diagnostic> {
    seq(|ds|, i requires 0 <= i < |ds| =>
      if ds[i].sourceConfigPaths == [] then ds[i].(sourceConfigPaths := [path]) else ds[i])
  }

  function FailedState(before: ConfigState, now: int, diagnostics: seq<Diagnostic>): ConfigState {
    ConfigState(Failed, Some(now), before.reloadedAt, before.hash, diagnostics)
  }

  /** `commit_prepared_registration`. */
  function CommittedPrepared(p: Plan, sourcePath: string, prepared: Prepared, now: int): Plan {
    var id := prepared.registration.id;
    if prepared.diagnostics == [] then
      p.(diagnostics := p.diagnostics - {id}, routes := p.routes[id := prepared.routes])
    else
      var ds := WithPath(prepared.diagnostics, sourcePath);
      Plan(p.routes - {id}, p.diagnostics[id := ds], FailedState(p.current, now, ds))
  }

  function EnabledOnly(rs: seq<Registration>): seq<Registration> {
    if rs == [] then []
    else (if rs[0].activation.IsEnabled() then [rs[0]] else []) + EnabledOnly(rs[1..])
  }

  function Ids(rs: seq<Registration>): set<string> {
    set r | r in rs :: r.id
  }

  function Restricted<V>(m: map<string, V>, keys: set<string>): map<string, V> {
    map k | k in m && k in keys :: m[k]
  }

  function DiagnosticsOf(diagnostics: map<string, seq<Diagnostic>>, keys: seq<string>, enabled: set<string>)
    : seq<Diagnostic>
    requires forall k | k in keys :: k in diagnostics
  {
    if keys == [] then []
    else (if keys[0] in enabled then diagnostics[keys[0]] else []) + DiagnosticsOf(diagnostics, keys[1..], enabled)
  }

  /** The adapter diagnostics of enabled registrations, then the domain conflicts. */
  function AllDiagnostics(diagnostics: map<string, seq<Diagnostic>>, rs: seq<Registration>): seq<Diagnostic> {
    DiagnosticsOf(diagnostics, Sorted(diagnostics.Keys), Ids(EnabledOnly(rs))) + ConflictDiagnostics(rs)
  }

  predicate NothingToServe(rs: seq<Registration>) {
    forall r | r in rs :: ActiveDomains(r) == {}
  }

  /** `begin_apply`. */
  function BegunApply(p: Plan, rs: seq<Registration>, now: int, how: Rendering): (Plan, ApplyAction) {
    var kept := p.(routes := Restricted(p.routes, Ids(rs)), diagnostics := Restricted(p.diagnostics, Ids(rs)));
    var diagnostics := AllDiagnostics(kept.diagnostics, rs);
    var active := EnabledOnly(rs);
    if diagnostics != [] then
      var state := FailedState(p.current, now, diagnostics);
      (kept.(current := state), Current(state))
    else if NothingToServe(active) then (kept, Stop(now))
    else
      var rendered := how.render(Composed(active, kept.routes, how.canon));
      (kept, Apply(now, rendered, how.digest(rendered), ConfigPaths(active)))
  }

  function FinishedIdle(p: Plan, attempted: int): Plan {
    p.(current := ConfigState(Idle, Some(attempted), p.current.reloadedAt, None, []))
  }

  /** `finish_runtime_apply`, for a successful apply and for a failed one. */
  function FinishedApply(p: Plan, attempted: int, hash: string, paths: seq<string>, ok: bool, now: int): Plan {
    p.(current :=
      if ok then ConfigState(Applied, Some(attempted), Some(now), Some(hash), [])
      else FailedState(p.current, attempted, [Diagnostic("runtime-apply-failed", None, paths)]))
  }

  class CaddyConfigCoordinator {
    const how: Rendering
    var routes: Routes
    var diagnostics: map<string, seq<Diagnostic>>
    var current: ConfigState

    constructor (how: Rendering)
      ensures this.how == how && View() == Plan(map[], map[], IDLE_CONFIG)
    {
      this.how := how;
      routes, diagnostics, current := map[], map[], IDLE_CONFIG;
    }

    /** `clone`: a candidate that a transaction may change and drop. */
    constructor Clone(original: CaddyConfigCoordinator)
      ensures how == original.how && View() == original.View()
    {
      how := original.how;
      routes, diagnostics, current := original.routes, original.diagnostics, original.current;
    }

    ghost function View(): Plan
      reads this
    {
      Plan(routes, diagnostics, current)
    }

    method CommitPreparedRegistration(sourcePath: string, prepared: Prepared, now: int) returns (r: Registration)
      modifies this
      ensures View() == CommittedPrepared(old(View()), sourcePath, prepared, now) && r == prepared.registration
    {
      r := prepared.registration;
      if prepared.diagnostics == [] {
        diagnostics := diagnostics - {r.id};
        routes := routes[r.id := prepared.routes];
      } else {
        routes := routes - {r.id};
        var ds := WithPath(prepared.diagnostics, sourcePath);
        diagnostics := diagnostics[r.id := ds];
        current := FailedState(current, now, ds);
      }
    }

    method BeginApply(rs: seq<Registration>, now: int) returns (action: ApplyAction)
      modifies this
      ensures (View(), action) == BegunApply(old(View()), rs, now, how)
    {
      var ids := Ids(rs);
      routes := Restricted(routes, ids);
      diagnostics := Restricted(diagnostics, ids);
      var conflicts := DetectConflicts(rs);
      var active := EnabledOnly(rs);
      var found := DiagnosticsOf(diagnostics, Sorted(diagnostics.Keys), Ids(active)) + conflicts;
      if found != [] {
        current := FailedState(current, now, found);
        return Current(current);
      }
      if NothingToServe(active) {
        return Stop(now);
      }
      var config := ComposeConfig(active, routes, how.canon);
      var rendered := how.render(config);
      return Apply(now, rendered, how.digest(rendered), ConfigPaths(active));
    }

    method FinishIdle(attempted: int)
      modifies this`current
      ensures View() == FinishedIdle(old(View()), attempted)
    {
      current := ConfigState(Idle, Some(attempted), current.reloadedAt, None, []);
    }

    method FinishRuntimeApply(attempted: int, hash: string, paths: seq<string>, ok: bool, now: int)
      modifies this`current
      ensures View() == FinishedApply(old(View()), attempted, hash, paths, ok, now)
    {
      if ok {
        current := ConfigState(Applied, Some(attempted), Some(now), Some(hash), []);
      } else {
        current := FailedState(current, attempted, [Diagnostic("runtime-apply-failed", None, paths)]);
      }
    }
  }

  // ---------------------------------------------------------------- what decides

  /** Some enabled registration could not be adapted, or lists an enabled domain twice. */
  ghost predicate Troubled(regs: Registry, diagnostics: map<string, seq<Diagnostic>>) {
    exists k :: k in regs && ((regs[k].activation.IsEnabled() && k in diagnostics) || !ListsEachOnce(regs[k]))
  }

  /** No enabled registration has an enabled domain. */
  ghost predicate Quiet(regs: Registry) {
    forall k | k in regs && regs[k].activation.IsEnabled() :: ActiveDomains(regs[k]) == {}
  }

  lemma {:induction false} EnabledOnlyMembers(rs: seq<Registration>)
    ensures forall r :: r in EnabledOnly(rs) <==> r in rs && r.activation.IsEnabled()
  {
    if rs != [] {
      EnabledOnlyMembers(rs[1..]);
    }
  }

  lemma IdsOfValues(regs: Registry)
    requires KeysAreIds(regs)
    ensures Ids(Values(regs)) == regs.Keys
    ensures forall k :: k in Ids(EnabledOnly(Values(regs))) <==> k in regs && regs[k].activation.IsEnabled()
  {
    EnabledOnlyMembers(Values(regs));
    forall r { ValuesAreTheRange(regs, r); }
    forall k | k in regs ensures k in Ids(Values(regs)) { assert regs[k] in Values(regs); }
    forall k | k in regs && regs[k].activation.IsEnabled() ensures k in Ids(EnabledOnly(Values(regs))) {
      assert regs[k] in EnabledOnly(Values(regs));
    }
  }

  lemma {:induction false} NoneOfTheseDiagnosed(diagnostics: map<string, seq<Diagnostic>>, keys: seq<string>,
                                                enabled: set<string>)
    requires forall k | k in keys :: k in diagnostics && diagnostics[k] != []
    ensures DiagnosticsOf(diagnostics, keys, enabled) == [] <==> forall k | k in keys :: k !in enabled
  {
    if keys != [] {
      NoneOfTheseDiagnosed(diagnostics, keys[1..], enabled);
    }
  }

  lemma DiagnosedExactly(regs: Registry, diagnostics: map<string, seq<Diagnostic>>)
    requires KeysAreIds(regs)
    requires forall k | k in diagnostics :: diagnostics[k] != []
    ensures DiagnosticsOf(Restricted(diagnostics, regs.Keys), Sorted(Restricted(diagnostics, regs.Keys).Keys),
                          Ids(EnabledOnly(Values(regs)))) == []
            <==> !exists k :: k in regs && regs[k].activation.IsEnabled() && k in diagnostics
  {
    IdsOfValues(regs);
    var kept := Restricted(diagnostics, regs.Keys);
    var enabled := Ids(EnabledOnly(Values(regs)));
    NoneOfTheseDiagnosed(kept, Sorted(kept.Keys), enabled);
    if k :| k in regs && regs[k].activation.IsEnabled() && k in diagnostics {
      assert k in Sorted(kept.Keys) && k in enabled;
    }
  }

  /** For a registry with single owners, the action follows from trouble and quiet alone. */
  lemma BeginApplyDecides(p: Plan, regs: Registry, now: int, how: Rendering)
    requires KeysAreIds(regs) && SingleOwner(regs)
    requires forall k | k in p.diagnostics :: p.diagnostics[k] != []
    ensures var (next, action) := BegunApply(p, Values(regs), now, how);
            && (action.Current? <==> Troubled(regs, p.diagnostics))
            && (action.Stop? <==> !Troubled(regs, p.diagnostics) && Quiet(regs))
            && next.routes == Restricted(p.routes, regs.Keys)
            && next.diagnostics == Restricted(p.diagnostics, regs.Keys)
  {
    assert Ids(Values(regs)) == regs.Keys by { IdsOfValues(regs); }
    DiagnosedExactly(regs, p.diagnostics);
    GlobalCheckIsExact(regs);
    QuietExactly(regs);
  }

  lemma QuietExactly(regs: Registry)
    ensures NothingToServe(EnabledOnly(Values(regs))) <==> Quiet(regs)
  {
    EnabledOnlyMembers(Values(regs));
    if NothingToServe(EnabledOnly(Values(regs))) {
      forall k | k in regs && regs[k].activation.IsEnabled() ensures ActiveDomains(regs[k]) == {} {
        ValuesAreTheRange(regs, regs[k]);
      }
    }
    if Quiet(regs) {
      forall r | r in EnabledOnly(Values(regs)) ensures ActiveDomains(r) == {} { ValuesAreTheRange(regs, r); }
    }
  }

  // ---------------------------------------------------------------- what a failed state tells

  lemma {:induction false} DiagnosticsOfExactly(diagnostics: map<string, seq<Diagnostic>>, keys: seq<string>,
                                                enabled: set<string>, x: Diagnostic)
    requires forall k | k in keys :: k in diagnostics
    ensures x in DiagnosticsOf(diagnostics, keys, enabled) <==>
            exists k :: k in keys && k in enabled && x in diagnostics[k]
  {
    if keys != [] {
      DiagnosticsOfExactly(diagnostics, keys[1..], enabled, x);
    }
  }

  /** An enabled registration has this diagnostic. */
  ghost predicate IsDiagnosed(regs: Registry, diagnostics: map<string, seq<Diagnostic>>, x: Diagnostic) {
    exists k :: k in regs && regs[k].activation.IsEnabled() && k in diagnostics && x in diagnostics[k]
  }

  /**
   A failed state names the trouble: its diagnostics are those of the enabled registrations that
   could not be adapted, and the conflicts of the registry, each with the configurations of exactly
   its claimants. The hash and the reload time stay.
   */
  lemma FailedStatesNameTheTrouble(p: Plan, regs: Registry, now: int, how: Rendering, x: Diagnostic)
    requires KeysAreIds(regs)
    ensures var (next, action) := BegunApply(p, Values(regs), now, how);
            && (action.Current? ==>
                  && action.state == next.current && next.current.status.Failed?
                  && next.current.attemptedAt == Some(now)
                  && next.current.hash == p.current.hash && next.current.reloadedAt == p.current.reloadedAt
                  && (x in next.current.diagnostics <==>
                        IsDiagnosed(regs, p.diagnostics, x) || IsConflict(regs, x)))
            && (!action.Current? ==>
                  next.current == p.current && !IsDiagnosed(regs, p.diagnostics, x) && !IsConflict(regs, x))
  {
    hide ConflictDiagnostics;
    hide NothingToServe;
    hide Values;
    hide IsConflict;
    IdsOfValues(regs);
    var kept := Restricted(p.diagnostics, regs.Keys);
    DiagnosticsOfExactly(kept, Sorted(kept.Keys), Ids(EnabledOnly(Values(regs))), x);
    ReportedExactly(regs, x);
    assert x in AllDiagnostics(kept, Values(regs)) <==>
           IsDiagnosed(regs, p.diagnostics, x) || IsConflict(regs, x);
  }

  /** A configuration to apply names the configuration files of the enabled registrations, and no others. */
  lemma AppliesNameTheirConfigurations(p: Plan, regs: Registry, now: int, how: Rendering, path: string)
    ensures var action := BegunApply(p, Values(regs), now, how).1;
            action.Apply? ==>
              (path in action.sourceConfigPaths <==>
               exists k :: k in regs && regs[k].activation.IsEnabled() && regs[k].configPath == path)
  {
    hide AllDiagnostics;
    hide NothingToServe;
    hide Values;
    var active := EnabledOnly(Values(regs));
    EnabledOnlyMembers(Values(regs));
    if path in ConfigPaths(active) {
      var i :| 0 <= i < |active| && active[i].configPath == path;
      ValuesAreTheRange(regs, active[i]);
    }
    if k :| k in regs && regs[k].activation.IsEnabled() && regs[k].configPath == path {
      ValuesAreTheRange(regs, regs[k]);
      var i :| 0 <= i < |active| && active[i] == regs[k];
      assert ConfigPaths(active)[i] == path;
    }
  }
}
