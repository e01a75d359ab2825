/**
 Who owns a domain. The transaction checks only the registration it changes; the composer
 checks the whole registry. The two are proved to agree.
 */
module DomainOwnership {
  import opened Wrappers
  import opened StringOrder
  import opened Registrations

  datatype Diagnostic = Diagnostic(code: string, domainKey: Option<string>, sourceConfigPaths: seq<string>)

  datatype OwnershipConflict = OwnershipConflict(domain: string, owner: string, conflicting: string)

  // ---------------------------------------------------------------- the incremental check

  function OwnersAmong(rs: seq<Registration>, candidate: string): map<string, string> {
    if rs == [] then map[]
    else
      (if rs[0].id != candidate && rs[0].activation.IsEnabled()
       then map d | d in ActiveDomains(rs[0]) :: rs[0].id else map[])
      + OwnersAmong(rs[1..], candidate)
  }

  function FirstOwned(domains: seq<Domain>, owners: map<string, string>, candidate: string): Option<OwnershipConflict> {
    if domains == [] then None
    else if domains[0].activation.IsEnabled() && domains[0].canonical in owners then
      Some(OwnershipConflict(domains[0].canonical, owners[domains[0].canonical], candidate))
    else FirstOwned(domains[1..], owners, candidate)
  }

  /** `active_domain_ownership_conflict`. */
  function ActiveDomainOwnershipConflict(regs: Registry, candidate: string): Option<OwnershipConflict> {
    if candidate !in regs || !regs[candidate].activation.IsEnabled() then None
    else FirstOwned(regs[candidate].domains, OwnersAmong(Values(regs), candidate), regs[candidate].id)
  }

  lemma {:induction false} OwnersAmongExactly(rs: seq<Registration>, candidate: string, d: string)
    ensures d in OwnersAmong(rs, candidate) <==>
            exists i :: 0 <= i < |rs| && rs[i].id != candidate && rs[i].activation.IsEnabled()
                        && d in ActiveDomains(rs[i])
    ensures d in OwnersAmong(rs, candidate) ==>
            exists i :: 0 <= i < |rs| && rs[i].id == OwnersAmong(rs, candidate)[d] && rs[i].id != candidate
                        && rs[i].activation.IsEnabled() && d in ActiveDomains(rs[i])
  {
    if rs != [] {
      OwnersAmongExactly(rs[1..], candidate, d);
      assert forall i | 0 <= i < |rs[1..]| :: rs[1..][i] == rs[i + 1];
      assert forall i | 1 <= i < |rs| :: rs[i] == rs[1..][i - 1];
    }
  }

  /** Place `i` is the first enabled domain that is among these. */
  ghost predicate FirstAmong(domains: seq<Domain>, names: set<string>, i: nat) {
    && i < |domains| && domains[i].activation.IsEnabled() && domains[i].canonical in names
    && forall j | 0 <= j < i && domains[j].activation.IsEnabled() :: domains[j].canonical !in names
  }

  lemma {:induction false} FirstOwnedExactly(domains: seq<Domain>, owners: map<string, string>, candidate: string)
    ensures FirstOwned(domains, owners, candidate).None? <==>
            forall d | d in domains && d.activation.IsEnabled() :: d.canonical !in owners
    ensures var c := FirstOwned(domains, owners, candidate);
            c.Some? ==> c.value.conflicting == candidate && c.value.domain in owners
                        && c.value.owner == owners[c.value.domain]
                        && exists i: nat :: FirstAmong(domains, owners.Keys, i)
                            && domains[i].canonical == c.value.domain
  {
    if domains != [] {
      FirstOwnedExactly(domains[1..], owners, candidate);
      var c := FirstOwned(domains, owners, candidate);
      if domains[0].activation.IsEnabled() && domains[0].canonical in owners {
        assert FirstAmong(domains, owners.Keys, 0);
      } else if c.Some? {
        var i: nat :| FirstAmong(domains[1..], owners.Keys, i) && domains[1..][i].canonical == c.value.domain;
        assert FirstAmong(domains, owners.Keys, i + 1);
      }
    }
  }

  ghost predicate Owns(regs: Registry, k: string, d: string) {
    k in regs && regs[k].activation.IsEnabled() && d in ActiveDomains(regs[k])
  }

  /** No two enabled registrations share an enabled canonical domain. */
  ghost predicate SingleOwner(regs: Registry) {
    forall a, b, d | Owns(regs, a, d) && Owns(regs, b, d) :: a == b
  }

  lemma OwnersAreTheOthers(regs: Registry, candidate: string, d: string)
    requires KeysAreIds(regs)
    ensures var owners := OwnersAmong(Values(regs), candidate);
            && (d in owners ==> owners[d] != candidate && Owns(regs, owners[d], d))
            && (forall k | k != candidate && Owns(regs, k, d) :: d in owners)
  {
    var rs := Values(regs);
    OwnersAmongExactly(rs, candidate, d);
    if d in OwnersAmong(rs, candidate) {
      var i :| 0 <= i < |rs| && rs[i].id == OwnersAmong(rs, candidate)[d] && rs[i].id != candidate
               && rs[i].activation.IsEnabled() && d in ActiveDomains(rs[i]);
      ValuesAreTheRange(regs, rs[i]);
    }
    forall k | k != candidate && Owns(regs, k, d) ensures d in OwnersAmong(rs, candidate) {
      ValuesAreTheRange(regs, regs[k]);
    }
  }

  /** Place `i` is the first enabled domain of the candidate that someone else owns. */
  ghost predicate FirstTaken(regs: Registry, candidate: string, i: nat) {
    && candidate in regs && i < |regs[candidate].domains| && regs[candidate].domains[i].activation.IsEnabled()
    && (exists k :: k != candidate && Owns(regs, k, regs[candidate].domains[i].canonical))
    && forall j, k | 0 <= j < i && k != candidate && regs[candidate].domains[j].activation.IsEnabled() ::
         !Owns(regs, k, regs[candidate].domains[j].canonical)
  }

  /**
   The check is silent exactly when nobody else owns a domain of the candidate; otherwise it names
   the first such domain that the candidate lists, and someone else who owns it.
   */
  lemma OwnershipCheckIsExact(regs: Registry, candidate: string)
    requires KeysAreIds(regs)
    ensures ActiveDomainOwnershipConflict(regs, candidate).None? <==>
            forall k, d | k != candidate && Owns(regs, candidate, d) :: !Owns(regs, k, d)
    ensures var c := ActiveDomainOwnershipConflict(regs, candidate);
            c.Some? ==> c.value.conflicting == candidate && c.value.owner != candidate
                        && Owns(regs, candidate, c.value.domain) && Owns(regs, c.value.owner, c.value.domain)
                        && exists i: nat :: FirstTaken(regs, candidate, i)
                                            && regs[candidate].domains[i].canonical == c.value.domain
  {
    if candidate in regs && regs[candidate].activation.IsEnabled() {
      var domains, owners := regs[candidate].domains, OwnersAmong(Values(regs), candidate);
      FirstOwnedExactly(domains, owners, candidate);
      forall d { OwnersAreTheOthers(regs, candidate, d); }
      var c := ActiveDomainOwnershipConflict(regs, candidate);
      if c.Some? {
        var i: nat :| FirstAmong(domains, owners.Keys, i) && domains[i].canonical == c.value.domain;
        assert FirstTaken(regs, candidate, i);
      }
    }
  }

  // ---------------------------------------------------------------- the global check

  function EnabledEntries(domains: seq<Domain>): seq<string> {
    if domains == [] then []
    else
      var rest := EnabledEntries(domains[..|domains| - 1]);
      var last := domains[|domains| - 1];
      if last.activation.IsEnabled() then rest + [last.canonical] else rest
  }

  function Copies(r: Registration, d: string, entries: seq<string>): seq<Registration> {
    if entries == [] then []
    else Copies(r, d, entries[..|entries| - 1]) + (if entries[|entries| - 1] == d then [r] else [])
  }

  /** Everyone who lists `d` as enabled while enabled, once per listing, in order. */
  function Claimants(rs: seq<Registration>, d: string): seq<Registration> {
    if rs == [] then []
    else
      var last := rs[|rs| - 1];
      Claimants(rs[..|rs| - 1], d)
      + (if last.activation.IsEnabled() then Copies(last, d, EnabledEntries(last.domains)) else [])
  }

  function ConfigPaths(rs: seq<Registration>): seq<string> {
    seq(|rs|, i requires 0 <= i < |rs| => rs[i].configPath)
  }

  function ConflictsAmong(keys: seq<string>, owners: map<string, seq<Registration>>): seq<Diagnostic>
    requires forall k | k in keys :: k in owners
  {
    if keys == [] then []
    else
      (if |owners[keys[0]]| > 1
       then [Diagnostic("domain-conflict", Some(keys[0]), ConfigPaths(owners[keys[0]]))] else [])
      + ConflictsAmong(keys[1..], owners)
  }

  function ClaimedDomains(rs: seq<Registration>): set<string> {
    set r, d | r in rs && r.activation.IsEnabled() && d in ActiveDomains(r) :: d
  }

  function OwnerTable(rs: seq<Registration>): map<string, seq<Registration>> {
    map d | d in ClaimedDomains(rs) :: Claimants(rs, d)
  }

  /** What `detect_conflicts` reports: one diagnostic per domain with more than one claimant. */
  function ConflictDiagnostics(rs: seq<Registration>): seq<Diagnostic> {
    ConflictsAmong(Sorted(ClaimedDomains(rs)), OwnerTable(rs))
  }

  lemma {:induction false} EntriesAreTheActiveDomains(domains: seq<Domain>)
    ensures forall d :: d in EnabledEntries(domains) <==>
              exists e :: e in domains && e.activation.IsEnabled() && e.canonical == d
  {
    if domains != [] {
      EntriesAreTheActiveDomains(domains[..|domains| - 1]);
      assert domains == domains[..|domains| - 1] + [domains[|domains| - 1]];
    }
  }

  lemma {:induction false} CopiesCount(r: Registration, d: string, entries: seq<string>)
    ensures |Copies(r, d, entries)| == multiset(entries)[d]
  {
    if entries != [] {
      CopiesCount(r, d, entries[..|entries| - 1]);
      assert entries == entries[..|entries| - 1] + [entries[|entries| - 1]];
    }
  }

  /** How often registration `r` claims `d`. */
  ghost function Listings(r: Registration, d: string): nat {
    if r.activation.IsEnabled() then multiset(EnabledEntries(r.domains))[d] else 0
  }

  ghost function Counts(rs: seq<Registration>, d: string): seq<nat> {
    seq(|rs|, i requires 0 <= i < |rs| => Listings(rs[i], d))
  }

  ghost function Total(counts: seq<nat>): nat {
    if counts == [] then 0 else Total(counts[..|counts| - 1]) + counts[|counts| - 1]
  }

  lemma {:induction false} ClaimantsCount(rs: seq<Registration>, d: string)
    ensures |Claimants(rs, d)| == Total(Counts(rs, d))
  {
    if rs != [] {
      var n := |rs| - 1;
      ClaimantsCount(rs[..n], d);
      CopiesCount(rs[n], d, EnabledEntries(rs[n].domains));
      assert Counts(rs, d)[..n] == Counts(rs[..n], d);
    }
  }

  ghost predicate AtMostOneAmong(counts: seq<nat>) {
    && (forall i | 0 <= i < |counts| :: counts[i] <= 1)
    && (forall i, j | 0 <= i < j < |counts| :: counts[i] == 0 || counts[j] == 0)
  }

  lemma {:induction false} TotalAtMostOne(counts: seq<nat>)
    ensures Total(counts) == 0 <==> forall i | 0 <= i < |counts| :: counts[i] == 0
    ensures Total(counts) <= 1 <==> AtMostOneAmong(counts)
  {
    if counts != [] {
      var front := counts[..|counts| - 1];
      TotalAtMostOne(front);
      assert forall i | 0 <= i < |front| :: front[i] == counts[i];
      if AtMostOneAmong(counts) && counts[|counts| - 1] != 0 {
        assert forall i | 0 <= i < |front| :: counts[i] == 0;
      }
      if AtMostOneAmong(front) && counts[|counts| - 1] == 0 {
        assert AtMostOneAmong(counts);
      }
    }
  }

  lemma {:induction false} NoDiagnosticsExactly(keys: seq<string>, owners: map<string, seq<Registration>>)
    requires forall k | k in keys :: k in owners
    ensures ConflictsAmong(keys, owners) == [] <==> forall k | k in keys :: |owners[k]| <= 1
  {
    if keys != [] {
      NoDiagnosticsExactly(keys[1..], owners);
    }
  }

  lemma ListingsPositive(r: Registration, d: string)
    ensures Listings(r, d) >= 1 <==> r.activation.IsEnabled() && d in ActiveDomains(r)
  {
    EntriesAreTheActiveDomains(r.domains);
    assert d in EnabledEntries(r.domains) <==> multiset(EnabledEntries(r.domains))[d] >= 1;
  }

  /** An enabled registration lists no enabled domain twice. */
  ghost predicate ListsEachOnce(r: Registration) {
    forall d :: Listings(r, d) <= 1
  }

  lemma ClaimedExactly(rs: seq<Registration>, d: string)
    ensures d in ClaimedDomains(rs) <==> |Claimants(rs, d)| > 0
  {
    ClaimantsCount(rs, d);
    TotalAtMostOne(Counts(rs, d));
    assert |Claimants(rs, d)| > 0 <==> exists i :: 0 <= i < |rs| && Listings(rs[i], d) != 0 by {
      assert forall i | 0 <= i < |rs| :: Counts(rs, d)[i] == Listings(rs[i], d);
    }
    forall i | 0 <= i < |rs| { ListingsPositive(rs[i], d); }
  }

  lemma AtMostOneByKey(keys: seq<string>, count: map<string, nat>, counts: seq<nat>)
    requires forall k :: k in keys <==> k in count
    requires forall i, j | 0 <= i < j < |keys| :: keys[i] != keys[j]
    requires |counts| == |keys| && forall i | 0 <= i < |keys| :: counts[i] == count[keys[i]]
    ensures AtMostOneAmong(counts) <==>
            (forall k | k in count :: count[k] <= 1)
            && (forall a, b | a in count && b in count && a != b :: count[a] == 0 || count[b] == 0)
  {
    if AtMostOneAmong(counts) {
      forall a, b | a in count && b in count && a != b ensures count[a] == 0 || count[b] == 0 {
        var i :| 0 <= i < |keys| && keys[i] == a;
        var j :| 0 <= j < |keys| && keys[j] == b;
        assert counts[i] == 0 || counts[j] == 0;
      }
      forall k | k in count ensures count[k] <= 1 {
        var i :| 0 <= i < |keys| && keys[i] == k;
      }
    }
  }

  lemma ClaimantsOfRegistry(regs: Registry, d: string)
    ensures |Claimants(Values(regs), d)| <= 1 <==>
            (forall k | k in regs :: Listings(regs[k], d) <= 1)
            && (forall a, b | a in regs && b in regs && a != b ::
                Listings(regs[a], d) == 0 || Listings(regs[b], d) == 0)
  {
    var keys, rs := Sorted(regs.Keys), Values(regs);
    var count: map<string, nat> := map k | k in regs :: Listings(regs[k], d);
    ClaimantsCount(rs, d);
    TotalAtMostOne(Counts(rs, d));
    SortedHasNoRepeats(regs.Keys);
    forall i | 0 <= i < |keys| ensures Counts(rs, d)[i] == count[keys[i]] { ValueAt(regs, keys, i); }
    AtMostOneByKey(keys, count, Counts(rs, d));
  }

  lemma DiagnosticsExactly(rs: seq<Registration>)
    ensures ConflictDiagnostics(rs) == [] <==> forall d :: |Claimants(rs, d)| <= 1
  {
    var keys := Sorted(ClaimedDomains(rs));
    NoDiagnosticsExactly(keys, OwnerTable(rs));
    if ConflictDiagnostics(rs) == [] {
      forall d ensures |Claimants(rs, d)| <= 1 {
        ClaimedExactly(rs, d);
        if d in ClaimedDomains(rs) {
          assert d in keys && OwnerTable(rs)[d] == Claimants(rs, d);
        }
      }
    } else {
      var d :| d in keys && |OwnerTable(rs)[d]| > 1;
      assert |Claimants(rs, d)| > 1;
    }
  }

  /** The global check is silent exactly when domains have single owners and no owner repeats one. */
  lemma GlobalCheckIsExact(regs: Registry)
    ensures ConflictDiagnostics(Values(regs)) == [] <==>
            SingleOwner(regs) && forall k | k in regs :: ListsEachOnce(regs[k])
  {
    DiagnosticsExactly(Values(regs));
    SingleOwnerByListings(regs);
    if ConflictDiagnostics(Values(regs)) == [] {
      forall k, d | k in regs ensures Listings(regs[k], d) <= 1 { ClaimantsOfRegistry(regs, d); }
      forall d, a, b | a in regs && b in regs && a != b
        ensures Listings(regs[a], d) == 0 || Listings(regs[b], d) == 0
      { ClaimantsOfRegistry(regs, d); }
    } else {
      var d :| |Claimants(Values(regs), d)| > 1;
      ClaimantsOfRegistry(regs, d);
    }
  }

  lemma SingleOwnerByListings(regs: Registry)
    ensures SingleOwner(regs) <==>
            forall d, a, b | a in regs && b in regs && a != b :: Listings(regs[a], d) == 0 || Listings(regs[b], d) == 0
  {
    forall k, d | k in regs ensures Owns(regs, k, d) <==> Listings(regs[k], d) != 0 { ListingsPositive(regs[k], d); }
  }

  /**
   When the other registrations are free of conflicts, checking the candidate alone finds
   exactly what checking everything finds, once the candidate lists no domain twice.
   */
  lemma IncrementalCheckIsGlobal(regs: Registry, candidate: string)
    requires KeysAreIds(regs) && candidate in regs
    requires ConflictDiagnostics(Values(regs - {candidate})) == []
    ensures ConflictDiagnostics(Values(regs)) == [] <==>
            ActiveDomainOwnershipConflict(regs, candidate).None? && ListsEachOnce(regs[candidate])
  {
    hide ConflictDiagnostics;
    hide ActiveDomainOwnershipConflict;
    hide Values;
    hide Listings;
    var others := regs - {candidate};
    GlobalCheckIsExact(others);
    GlobalCheckIsExact(regs);
    OwnershipCheckIsExact(regs, candidate);
    assert forall k, d :: Owns(others, k, d) <==> k != candidate && Owns(regs, k, d);
    assert forall k | k in regs && k != candidate :: k in others && others[k] == regs[k];
    if ActiveDomainOwnershipConflict(regs, candidate).None? {
      forall a, b, d | Owns(regs, a, d) && Owns(regs, b, d) ensures a == b {
        if a != candidate && b != candidate {
          assert Owns(others, a, d) && Owns(others, b, d);
        }
      }
    }
  }

  /**
   The two checks differ on duplicates: one registration alone, listing one domain twice, takes
   nothing from anyone and is a conflict.
   */
  lemma DuplicatesAreConflicts(id: string, d: string)
    ensures var twice := [Domain(d, ActivationState.Active), Domain(d, ActivationState.Active)];
            var r := Registration(id, id, "n", "n", "/w", "/w/Caddyfile", twice, ActivationState.Active, 0, 0);
            var regs := map[id := r];
            ActiveDomainOwnershipConflict(regs, id).None? && ConflictDiagnostics(Values(regs)) != []
  {
    var twice := [Domain(d, ActivationState.Active), Domain(d, ActivationState.Active)];
    var r := Registration(id, id, "n", "n", "/w", "/w/Caddyfile", twice, ActivationState.Active, 0, 0);
    var regs := map[id := r];
    OwnershipCheckIsExact(regs, id);
    GlobalCheckIsExact(regs);
    assert twice[..1] == [twice[0]] && twice[..1][..0] == [];
    assert EnabledEntries(twice[..1]) == [d];
    assert EnabledEntries(twice) == [d, d];
    assert Listings(regs[id], d) == 2;
  }

  /** The report names exactly the contested domains, each with the configurations of its claimants. */
  lemma {:induction false} ConflictsNameTheContested(keys: seq<string>, owners: map<string, seq<Registration>>,
                                                     x: Diagnostic)
    requires forall k | k in keys :: k in owners
    ensures x in ConflictsAmong(keys, owners) <==>
            exists k :: k in keys && |owners[k]| > 1
                        && x == Diagnostic("domain-conflict", Some(k), ConfigPaths(owners[k]))
  {
    if keys != [] {
      ConflictsNameTheContested(keys[1..], owners, x);
    }
  }

  function At(table: map<string, seq<Registration>>, d: string): seq<Registration> {
    if d in table then table[d] else []
  }

  lemma PushClaim(table: map<string, seq<Registration>>, rs: seq<Registration>, r: Registration, entries: seq<string>,
                  d: string)
    requires PartTable(table, rs, r, entries)
    ensures PartTable(table[d := At(table, d) + [r]], rs, r, entries + [d])
  {
    hide Claimants;
    var next := table[d := At(table, d) + [r]];
    assert (entries + [d])[..|entries|] == entries;
    forall e ensures At(next, e) == Claimants(rs, e) + Copies(r, e, entries + [d]) {
      var more := if e == d then [r] else [];
      assert At(next, e) == At(table, e) + more;
      assert Copies(r, e, entries + [d]) == Copies(r, e, entries) + more;
    }
  }

  method ListClaims(owners: map<string, seq<Registration>>, rs: seq<Registration>, r: Registration)
    returns (table: map<string, seq<Registration>>)
    requires PartTable(owners, rs, r, [])
    ensures PartTable(table, rs, r, EnabledEntries(r.domains))
  {
    table := owners;
    for j := 0 to |r.domains|
      invariant PartTable(table, rs, r, EnabledEntries(r.domains[..j]))
    {
      assert r.domains[..j + 1][..j] == r.domains[..j];
      if r.domains[j].activation.IsEnabled() {
        var d := r.domains[j].canonical;
        PushClaim(table, rs, r, EnabledEntries(r.domains[..j]), d);
        table := table[d := At(table, d) + [r]];
      }
    }
    assert r.domains[..|r.domains|] == r.domains;
  }

  lemma ExtendTable(table: map<string, seq<Registration>>, rs: seq<Registration>, r: Registration)
    requires if r.activation.IsEnabled() then PartTable(table, rs, r, EnabledEntries(r.domains)) else TableIs(table, rs)
    ensures TableIs(table, rs + [r])
  {
    assert (rs + [r])[..|rs|] == rs;
  }

  /** `detect_conflicts`, as the loops that fill the owner table. */
  method DetectConflicts(rs: seq<Registration>) returns (diagnostics: seq<Diagnostic>)
    ensures diagnostics == ConflictDiagnostics(rs)
  {
    var owners: map<string, seq<Registration>> := map[];
    for i := 0 to |rs|
      invariant TableIs(owners, rs[..i])
    {
      if rs[i].activation.IsEnabled() {
        owners := ListClaims(owners, rs[..i], rs[i]);
      }
      ExtendTable(owners, rs[..i], rs[i]);
      assert rs[..i + 1] == rs[..i] + [rs[i]];
    }
    assert rs[..|rs|] == rs;
    TableIsTheOwnerTable(owners, rs);
    diagnostics := ConflictsAmong(Sorted(owners.Keys), owners);
  }

  ghost predicate PartTable(table: map<string, seq<Registration>>, rs: seq<Registration>, r: Registration,
                            entries: seq<string>) {
    && (forall d | d in table :: table[d] != [])
    && forall d :: At(table, d) == Claimants(rs, d) + Copies(r, d, entries)
  }

  ghost predicate TableIs(owners: map<string, seq<Registration>>, rs: seq<Registration>) {
    && (forall d | d in owners :: owners[d] != [])
    && forall d :: At(owners, d) == Claimants(rs, d)
  }

  lemma TableIsTheOwnerTable(owners: map<string, seq<Registration>>, rs: seq<Registration>)
    requires TableIs(owners, rs)
    ensures owners == OwnerTable(rs) && owners.Keys == ClaimedDomains(rs)
  {
    forall d ensures d in owners <==> d in ClaimedDomains(rs) {
      ClaimedExactly(rs, d);
      assert At(owners, d) == Claimants(rs, d);
    }
    forall d | d in owners ensures owners[d] == OwnerTable(rs)[d] {
      assert At(owners, d) == Claimants(rs, d);
    }
  }

  // ---------------------------------------------------------------- who the claimants are

  /** In the order of their ids, as a registry lists them. */
  ghost predicate IncreasingIds(rs: seq<Registration>) {
    forall i, j | 0 <= i < j < |rs| :: Less(rs[i].id, rs[j].id)
  }

  /** No later one has a smaller id. */
  ghost predicate InOrder(rs: seq<Registration>) {
    forall i, j | 0 <= i < j < |rs| :: !Less(rs[j].id, rs[i].id)
  }

  lemma {:induction false} CopiesAreTheRegistration(r: Registration, d: string, entries: seq<string>)
    ensures forall i | 0 <= i < |Copies(r, d, entries)| :: Copies(r, d, entries)[i] == r
    ensures multiset(Copies(r, d, entries)) == multiset{}[r := multiset(entries)[d]]
  {
    if entries != [] {
      var n := |entries| - 1;
      CopiesAreTheRegistration(r, d, entries[..n]);
      assert entries == entries[..n] + [entries[n]];
    }
  }

  lemma {:induction false} ClaimantsAreMembers(rs: seq<Registration>, d: string)
    ensures forall c | c in Claimants(rs, d) :: c in rs
  {
    if rs != [] {
      var n := |rs| - 1;
      ClaimantsAreMembers(rs[..n], d);
      CopiesAreTheRegistration(rs[n], d, EnabledEntries(rs[n].domains));
    }
  }

  /** Each registration claims a domain as often as it lists it. */
  lemma {:induction false} ClaimantsExactly(rs: seq<Registration>, d: string, r: Registration)
    requires IncreasingIds(rs)
    ensures multiset(Claimants(rs, d))[r] == if r in rs then Listings(r, d) else 0
  {
    if rs != [] {
      var n := |rs| - 1;
      ClaimantsExactly(rs[..n], d, r);
      CopiesAreTheRegistration(rs[n], d, EnabledEntries(rs[n].domains));
      assert rs == rs[..n] + [rs[n]];
      LessIsAsymmetric(rs[n].id, rs[n].id);
      assert rs[n] !in rs[..n];
    }
  }

  lemma {:induction false} ClaimantsInOrder(rs: seq<Registration>, d: string)
    requires IncreasingIds(rs)
    ensures InOrder(Claimants(rs, d))
  {
    if rs != [] {
      var n := |rs| - 1;
      var front, last := Claimants(rs[..n], d), rs[n];
      var more := if last.activation.IsEnabled() then Copies(last, d, EnabledEntries(last.domains)) else [];
      ClaimantsInOrder(rs[..n], d);
      CopiesAreTheRegistration(last, d, EnabledEntries(last.domains));
      ClaimantsAreMembers(rs[..n], d);
      LessIsAsymmetric(last.id, last.id);
      var all := front + more;
      forall i, j | 0 <= i < j < |all| ensures !Less(all[j].id, all[i].id) {
        if i < |front| <= j {
          assert front[i] in rs[..n];
          LessIsAsymmetric(front[i].id, last.id);
        }
      }
    }
  }

  lemma ValuesIncrease(regs: Registry)
    requires KeysAreIds(regs)
    ensures IncreasingIds(Values(regs))
  {
    var keys := Sorted(regs.Keys);
    SortedIncreases(regs.Keys);
    forall i | 0 <= i < |keys| ensures Values(regs)[i].id == keys[i] { ValueAt(regs, keys, i); }
  }

  /** These are the claims on a domain: everyone's, as often as they list it, in the order of ids. */
  ghost predicate AreTheClaims(regs: Registry, d: string, claims: seq<Registration>) {
    && (forall k | k in regs :: multiset(claims)[regs[k]] == Listings(regs[k], d))
    && (forall c | c in claims :: c.id in regs && regs[c.id] == c)
    && InOrder(claims)
  }

  /** A conflict that a registry has: a domain claimed more than once, with its claimants' configurations. */
  ghost predicate IsConflict(regs: Registry, x: Diagnostic) {
    && x.code == "domain-conflict" && x.domainKey.Some?
    && exists claims: seq<Registration> ::
         && AreTheClaims(regs, x.domainKey.value, claims) && |claims| > 1
         && |x.sourceConfigPaths| == |claims|
         && forall i | 0 <= i < |claims| :: x.sourceConfigPaths[i] == claims[i].configPath
  }

  lemma ClaimsOfRegistry(regs: Registry, d: string)
    requires KeysAreIds(regs)
    ensures AreTheClaims(regs, d, Claimants(Values(regs), d))
  {
    hide Claimants;
    hide Listings;
    ValuesIncrease(regs);
    ClaimantsAreMembers(Values(regs), d);
    ClaimantsInOrder(Values(regs), d);
    forall k | k in regs ensures multiset(Claimants(Values(regs), d))[regs[k]] == Listings(regs[k], d) {
      ClaimantsExactly(Values(regs), d, regs[k]);
      ValuesAreTheRange(regs, regs[k]);
    }
    forall c | c in Claimants(Values(regs), d) ensures c.id in regs && regs[c.id] == c { ValuesAreTheRange(regs, c); }
  }

  lemma LastIsGreatest(rs: seq<Registration>, r: Registration)
    requires InOrder(rs) && r in rs
    ensures !Less(rs[|rs| - 1].id, r.id)
  {
    LessIsAsymmetric(r.id, r.id);
  }

  lemma MembersOfTheFront<T>(s: seq<T>)
    requires s != []
    ensures multiset(s[..|s| - 1]) == multiset(s) - multiset{s[|s| - 1]}
  {
    assert s == s[..|s| - 1] + [s[|s| - 1]];
  }

  lemma SameLast(a: seq<Registration>, b: seq<Registration>)
    requires a != [] && multiset(a) == multiset(b) && InOrder(a) && InOrder(b)
    requires forall x, y | x in a && y in a && x.id == y.id :: x == y
    ensures b != [] && a[|a| - 1] == b[|b| - 1]
  {
    assert |multiset(a)| == |multiset(b)|;
    var x, y := a[|a| - 1], b[|b| - 1];
    assert x in multiset(b) && y in multiset(a);
    LastIsGreatest(a, y);
    LastIsGreatest(b, x);
    LessIsTotal(x.id, y.id);
  }

  /** Two lists of the claims on a domain are one. */
  lemma {:induction false} ClaimsAreUnique(a: seq<Registration>, b: seq<Registration>)
    requires multiset(a) == multiset(b) && InOrder(a) && InOrder(b)
    requires forall x, y | x in a && y in a && x.id == y.id :: x == y
    ensures a == b
  {
    if a == [] {
      assert |multiset(b)| == 0;
    } else {
      SameLast(a, b);
      MembersOfTheFront(a);
      MembersOfTheFront(b);
      ClaimsAreUnique(a[..|a| - 1], b[..|b| - 1]);
    }
  }

  lemma ClaimsHaveTheseCounts(regs: Registry, d: string, a: seq<Registration>, b: seq<Registration>)
    requires KeysAreIds(regs) && AreTheClaims(regs, d, a) && AreTheClaims(regs, d, b)
    ensures a == b
  {
    hide Listings;
    forall r ensures multiset(a)[r] == multiset(b)[r] {
      if r.id in regs && regs[r.id] == r {
        assert multiset(a)[r] == Listings(r, d) == multiset(b)[r];
      } else {
        assert r !in a && r !in b;
      }
    }
    ClaimsAreUnique(a, b);
  }

  lemma ConflictsAreContested(regs: Registry, x: Diagnostic)
    requires KeysAreIds(regs) && IsConflict(regs, x)
    ensures var rs := Values(regs);
            x.domainKey.value in ClaimedDomains(rs)
            && |Claimants(rs, x.domainKey.value)| > 1
            && x == Diagnostic("domain-conflict", Some(x.domainKey.value),
                               ConfigPaths(Claimants(rs, x.domainKey.value)))
  {
    hide Claimants;
    hide AreTheClaims;
    var d := x.domainKey.value;
    var claims: seq<Registration> :| AreTheClaims(regs, d, claims) && |claims| > 1
      && |x.sourceConfigPaths| == |claims|
      && forall i | 0 <= i < |claims| :: x.sourceConfigPaths[i] == claims[i].configPath;
    ClaimsOfRegistry(regs, d);
    ClaimsHaveTheseCounts(regs, d, claims, Claimants(Values(regs), d));
    ClaimedExactly(Values(regs), d);
    assert x.sourceConfigPaths == ConfigPaths(claims);
  }

  /** What is reported of a registry is exactly the conflicts that it has. */
  lemma ReportedExactly(regs: Registry, x: Diagnostic)
    requires KeysAreIds(regs)
    ensures x in ConflictDiagnostics(Values(regs)) <==> IsConflict(regs, x)
  {
    hide Claimants;
    hide ConflictsAmong;
    hide AreTheClaims;
    var rs := Values(regs);
    var keys, owners := Sorted(ClaimedDomains(rs)), OwnerTable(rs);
    ConflictsNameTheContested(keys, owners, x);
    if IsConflict(regs, x) {
      ConflictsAreContested(regs, x);
    }
    if d :| d in keys && |owners[d]| > 1 && x == Diagnostic("domain-conflict", Some(d), ConfigPaths(owners[d])) {
      ClaimsOfRegistry(regs, d);
      assert owners[d] == Claimants(rs, d);
    }
  }
}
