/** Entrypoint registrations, as clients send them and the daemon publishes them. */
module Registrations {
  import opened StringOrder

  datatype ActivationState = Unknown | Registered | Activating | Active | Inactive | Faulted {
    predicate IsEnabled() {
      Registered? || Activating? || Active?
    }

    static function FromEnabled(enabled: bool): ActivationState {
      if enabled then Active else Inactive
    }
  }

  datatype Domain = Domain(canonical: string, activation: ActivationState)

  datatype Registration = Registration(
    id: string,
    instanceId: string,
    nonce: string,
    ownerNonce: string,
    workingDirectory: string,
    configPath: string,
    domains: seq<Domain>,
    activation: ActivationState,
    createdAt: int,
    lastHeartbeat: int)

  type Registry = map<string, Registration>

  /** Unicode `White_Space`. */
  predicate IsWhitespace(c: char) {
    || '\t' <= c <= '\r'
    || '\U{2000}' <= c <= '\U{200A}'
    || c in {' ', '\U{85}', '\U{A0}', '\U{1680}', '\U{2028}', '\U{2029}', '\U{202F}', '\U{205F}', '\U{3000}'}
  }

  predicate IsBlank(s: string) {
    forall c | c in s :: IsWhitespace(c)
  }

  /** `validate_owner`. */
  predicate OwnerIsValid(r: Registration) {
    && !IsBlank(r.id)
    && r.id == r.instanceId
    && !IsBlank(r.nonce)
    && r.nonce == r.ownerNonce
  }

  /** `active_domains`: the enabled canonical names, whatever the registration's own state. */
  function ActiveDomains(r: Registration): set<string> {
    set d | d in r.domains && d.activation.IsEnabled() :: d.canonical
  }

  function ValuesAt(regs: Registry, keys: seq<string>): (rs: seq<Registration>)
    requires forall k | k in keys :: k in regs
    ensures |rs| == |keys|
  {
    if keys == [] then [] else [regs[keys[0]]] + ValuesAt(regs, keys[1..])
  }

  /** `BTreeMap::values`: the registrations in the order of their keys. */
  function Values(regs: Registry): seq<Registration> {
    ValuesAt(regs, Sorted(regs.Keys))
  }

  ghost predicate KeysAreIds(regs: Registry) {
    forall k | k in regs :: regs[k].id == k
  }

  lemma {:induction false} ValueAt(regs: Registry, keys: seq<string>, i: nat)
    requires forall k | k in keys :: k in regs
    requires i < |keys|
    ensures ValuesAt(regs, keys)[i] == regs[keys[i]]
  {
    if i > 0 {
      ValueAt(regs, keys[1..], i - 1);
    }
  }

  lemma ValuesAreTheRange(regs: Registry, r: Registration)
    ensures r in Values(regs) <==> exists k :: k in regs && regs[k] == r
  {
    var keys := Sorted(regs.Keys);
    if r in Values(regs) {
      var i :| 0 <= i < |keys| && Values(regs)[i] == r;
      ValueAt(regs, keys, i);
      assert keys[i] in regs;
    }
    if k :| k in regs && regs[k] == r {
      var i :| 0 <= i < |keys| && keys[i] == k;
      ValueAt(regs, keys, i);
    }
  }

  /** A domain is active by its own state alone: registered, activating or active. */
  lemma ActiveDomainsExactly(r: Registration, h: string)
    ensures h in ActiveDomains(r) <==>
            exists i :: 0 <= i < |r.domains| && r.domains[i].canonical == h
                        && r.domains[i].activation in {Registered, Activating, ActivationState.Active}
  {
    if d :| d in r.domains && d.activation.IsEnabled() && d.canonical == h {
      var i :| 0 <= i < |r.domains| && r.domains[i] == d;
      assert r.domains[i].canonical == h;
    }
  }
}
