/**
 Composing one Caddy configuration out of all enabled registrations, and the isolation it
 gives: every host reaches its owner's routes and nobody else's, in both servers.
 */
module ConfigComposition {
  import opened Wrappers
  import opened StringOrder
  import opened Registrations
  import opened Json
  import opened RouteHosts

  type Routes = map<string, seq<Json>>

  const HTTP_NAMESPACE := "http_"

  function Strings(ss: seq<string>): seq<Json> {
    seq(|ss|, i requires 0 <= i < |ss| => Str(ss[i]))
  }

  function HostMatch(hosts: seq<string>): Json {
    Arr([Obj(map["host" := Arr(Strings(hosts))])])
  }

  function PlaceholderRoutes(hosts: seq<string>): seq<Json> {
    seq(|hosts|, i requires 0 <= i < |hosts| => Obj(map[
      "match" := HostMatch([hosts[i]]),
      "handle" := Arr([Obj(map["handler" := Str("static_response"), "body" := Str("Cadder route placeholder")])]),
      "terminal" := Bool(true)]))
  }

  function FilteredRoutes(routes: seq<Json>, hosts: set<string>, canon: string -> string): seq<Json> {
    if routes == [] then []
    else
      var first := FilterRouteHosts(routes[0], hosts, canon);
      (if first.Some? then [first.value] else []) + FilteredRoutes(routes[1..], hosts, canon)
  }

  function RegistrationRoutes(r: Registration, routes: Routes, canon: string -> string): seq<Json> {
    if r.id in routes then FilteredRoutes(routes[r.id], ActiveDomains(r), canon)
    else PlaceholderRoutes(Sorted(ActiveDomains(r)))
  }

  /** `guard_registration_routes`. */
  function GuardRegistrationRoutes(routes: seq<Json>, hosts: set<string>): Option<Json> {
    if routes == [] then None
    else Some(Obj(map[
      "match" := HostMatch(Sorted(hosts)),
      "handle" := Arr([Obj(map["handler" := Str("subroute"), "routes" := Arr(routes)])]),
      "terminal" := Bool(true)]))
  }

  /** What one registration contributes to a server, if anything. */
  function Contribution(r: Registration, routes: Routes, canon: string -> string): Option<Json> {
    if ActiveDomains(r) == {} then None
    else GuardRegistrationRoutes(RegistrationRoutes(r, routes, canon), ActiveDomains(r))
  }

  function ToSeq<T>(o: Option<T>): seq<T> {
    if o.Some? then [o.value] else []
  }

  function TopRoutes(rs: seq<Registration>, routes: Routes, canon: string -> string): seq<Json> {
    if rs == [] then []
    else TopRoutes(rs[..|rs| - 1], routes, canon) + ToSeq(Contribution(rs[|rs| - 1], routes, canon))
  }

  function AllActiveDomains(rs: seq<Registration>): set<string> {
    set r, d | r in rs && d in ActiveDomains(r) :: d
  }

  function NamespacedAll(routes: seq<Json>, prefix: string): seq<Json> {
    seq(|routes|, i requires 0 <= i < |routes| => Namespaced(routes[i], prefix))
  }

  function ConfigTree(httpRoutes: seq<Json>, routes: seq<Json>, subjects: seq<string>): Json {
    Obj(map[
      "admin" := Obj(map["listen" := Str("localhost:2019")]),
      "apps" := Obj(map[
        "http" := Obj(map["servers" := Obj(map[
          "cadder_http" := Obj(map[
            "listen" := Arr(Strings(["127.0.0.1:80", "[::1]:80"])),
            "routes" := Arr(httpRoutes)]),
          "cadder_https" := Obj(map[
            "listen" := Arr(Strings(["127.0.0.1:443", "[::1]:443"])),
            "tls_connection_policies" := Arr([Obj(map[])]),
            "routes" := Arr(routes)])])]),
        "tls" := Obj(map["automation" := Obj(map["policies" := Arr([Obj(map[
          "subjects" := Arr(Strings(subjects)),
          "issuers" := Arr([Obj(map["module" := Str("internal")])])])])])])])])
  }

  function Composed(rs: seq<Registration>, routes: Routes, canon: string -> string): Json {
    var top := TopRoutes(rs, routes, canon);
    ConfigTree(NamespacedAll(top, HTTP_NAMESPACE), top, Sorted(AllActiveDomains(rs)))
  }

  method ComposeRoutes(rs: seq<Registration>, routes: Routes, canon: string -> string)
    returns (top: seq<Json>, subjects: set<string>)
    ensures top == TopRoutes(rs, routes, canon) && subjects == AllActiveDomains(rs)
  {
    top, subjects := [], {};
    for i := 0 to |rs|
      invariant top == TopRoutes(rs[..i], routes, canon)
      invariant subjects == AllActiveDomains(rs[..i])
    {
      TopRoutesStep(rs, i, routes, canon);
      var hosts := ActiveDomains(rs[i]);
      if hosts == {} {
        continue;
      }
      subjects := subjects + hosts;
      var guarded := GuardRegistrationRoutes(RegistrationRoutes(rs[i], routes, canon), hosts);
      if guarded.Some? {
        top := top + [guarded.value];
      }
    }
    assert rs[..|rs|] == rs;
  }

  lemma TopRoutesStep(rs: seq<Registration>, i: nat, routes: Routes, canon: string -> string)
    requires i < |rs|
    ensures TopRoutes(rs[..i + 1], routes, canon) ==
            TopRoutes(rs[..i], routes, canon) + ToSeq(Contribution(rs[i], routes, canon))
    ensures AllActiveDomains(rs[..i + 1]) == AllActiveDomains(rs[..i]) + ActiveDomains(rs[i])
  {
    assert rs[..i + 1][..i] == rs[..i];
    assert rs[..i + 1] == rs[..i] + [rs[i]];
  }

  /** `compose_config`. */
  method ComposeConfig(rs: seq<Registration>, routes: Routes, canon: string -> string) returns (config: Json)
    ensures config == Composed(rs, routes, canon)
  {
    var top, subjects := ComposeRoutes(rs, routes, canon);
    var httpRoutes := top;
    for i := 0 to |httpRoutes|
      invariant |httpRoutes| == |top|
      invariant forall j | 0 <= j < |top| ::
          httpRoutes[j] == if j < i then Namespaced(top[j], HTTP_NAMESPACE) else top[j]
    {
      httpRoutes := httpRoutes[i := Namespaced(httpRoutes[i], HTTP_NAMESPACE)];
    }
    assert httpRoutes == NamespacedAll(top, HTTP_NAMESPACE);
    config := ConfigTree(httpRoutes, top, Sorted(subjects));
  }

  // ---------------------------------------------------------------- routing

  predicate MatcherAccepts(matcher: Json, h: string, canon: string -> string) {
    matcher.Obj? && "host" in matcher.fields && matcher.fields["host"].Arr?
    && h in HostStrings(matcher.fields["host"].items, canon)
  }

  predicate RouteAccepts(route: Json, h: string, canon: string -> string) {
    route.Obj? && "match" in route.fields && route.fields["match"].Arr?
    && exists m :: m in route.fields["match"].items && MatcherAccepts(m, h, canon)
  }

  /** The terminal top-level route that serves a request for host `h`. */
  function ServedBy(routes: seq<Json>, h: string, canon: string -> string): Option<Json> {
    if routes == [] then None
    else if RouteAccepts(routes[0], h, canon) then Some(routes[0])
    else ServedBy(routes[1..], h, canon)
  }

  /** Domain names are stored in canonical form. */
  ghost predicate NamesAreCanonical(r: Registration, canon: string -> string) {
    forall d | d in ActiveDomains(r) :: canon(d) == d
  }

  ghost predicate Disjoint(rs: seq<Registration>) {
    forall i, j | 0 <= i < j < |rs| :: ActiveDomains(rs[i]) !! ActiveDomains(rs[j])
  }

  ghost predicate Composable(rs: seq<Registration>, canon: string -> string) {
    Disjoint(rs) && forall i | 0 <= i < |rs| :: NamesAreCanonical(rs[i], canon)
  }

  lemma StringsHost(hosts: seq<string>, canon: string -> string)
    ensures forall h :: h in HostStrings(Strings(hosts), canon) <==> exists d :: d in hosts && canon(d) == h
  {
    forall h ensures h in HostStrings(Strings(hosts), canon) <==> exists d :: d in hosts && canon(d) == h {
      if d :| d in hosts && canon(d) == h {
        var i :| 0 <= i < |hosts| && hosts[i] == d;
        assert Strings(hosts)[i] == Str(d);
      }
    }
  }

  /** A guard accepts exactly its registration's enabled hosts. */
  lemma GuardAcceptsItsHosts(r: Registration, routes: Routes, canon: string -> string, h: string)
    requires NamesAreCanonical(r, canon) && Contribution(r, routes, canon).Some?
    ensures RouteAccepts(Contribution(r, routes, canon).value, h, canon) <==> h in ActiveDomains(r)
  {
    var guarded := Contribution(r, routes, canon).value;
    StringsHost(Sorted(ActiveDomains(r)), canon);
    assert guarded.fields["match"].items == [Obj(map["host" := Arr(Strings(Sorted(ActiveDomains(r))))])];
    if h in ActiveDomains(r) {
      assert MatcherAccepts(guarded.fields["match"].items[0], h, canon);
    }
  }

  lemma {:induction false} ServedByConcat(a: seq<Json>, b: seq<Json>, h: string, canon: string -> string)
    ensures ServedBy(a + b, h, canon) ==
            if ServedBy(a, h, canon).Some? then ServedBy(a, h, canon) else ServedBy(b, h, canon)
  {
    if a == [] {
      assert a + b == b;
    } else {
      ServedByConcat(a[1..], b, h, canon);
      assert (a + b)[1..] == a[1..] + b;
    }
  }

  /** Nobody answers for a host that nobody enabled. */
  lemma {:induction false} StrangersAreNotServed(rs: seq<Registration>, routes: Routes, canon: string -> string,
                                                 h: string)
    requires Composable(rs, canon) && forall i | 0 <= i < |rs| :: h !in ActiveDomains(rs[i])
    ensures ServedBy(TopRoutes(rs, routes, canon), h, canon) == None
  {
    if rs != [] {
      var n := |rs| - 1;
      StrangersAreNotServed(rs[..n], routes, canon, h);
      ServedByConcat(TopRoutes(rs[..n], routes, canon), ToSeq(Contribution(rs[n], routes, canon)), h, canon);
      if Contribution(rs[n], routes, canon).Some? {
        GuardAcceptsItsHosts(rs[n], routes, canon, h);
      }
    }
  }

  /** A host is served by its owner's guard and by nothing else; if its owner has no route, by nothing. */
  lemma {:induction false} OwnersAreServed(rs: seq<Registration>, routes: Routes, canon: string -> string, h: string,
                                           owner: nat)
    requires Composable(rs, canon) && owner < |rs| && h in ActiveDomains(rs[owner])
    ensures ServedBy(TopRoutes(rs, routes, canon), h, canon) == Contribution(rs[owner], routes, canon)
  {
    hide Contribution;
    hide RouteAccepts;
    hide ActiveDomains;
    var n := |rs| - 1;
    ServedByConcat(TopRoutes(rs[..n], routes, canon), ToSeq(Contribution(rs[n], routes, canon)), h, canon);
    if Contribution(rs[n], routes, canon).Some? {
      GuardAcceptsItsHosts(rs[n], routes, canon, h);
    }
    if owner == n {
      StrangersAreNotServed(rs[..n], routes, canon, h);
    } else {
      OwnersAreServed(rs[..n], routes, canon, h, owner);
    }
  }

  lemma NamespacedMatcher(m: Json, h: string, canon: string -> string)
    ensures MatcherAccepts(Namespaced(m, HTTP_NAMESPACE), h, canon) <==> MatcherAccepts(m, h, canon)
  {
    if m.Obj? && "host" in m.fields && m.fields["host"].Arr? {
      assert "host" != "@id" by { assert |"host"| != |"@id"|; }
      var items := m.fields["host"].items;
      assert Namespaced(m, HTTP_NAMESPACE).fields["host"] == Namespaced(Arr(items), HTTP_NAMESPACE);
      var copies := Namespaced(Arr(items), HTTP_NAMESPACE).items;
      forall i | 0 <= i < |items| ensures copies[i].Str? == items[i].Str? && (items[i].Str? ==> copies[i] == items[i]) {
        assert copies[i] == Namespaced(items[i], HTTP_NAMESPACE);
      }
      assert HostStrings(copies, canon) == HostStrings(items, canon) by {
        forall x ensures x in HostStrings(copies, canon) <==> x in HostStrings(items, canon) {
          if j :| j in items && j.Str? && canon(j.s) == x {
            var i :| 0 <= i < |items| && items[i] == j;
            assert copies[i] == j;
          }
        }
      }
    }
  }

  lemma NamespacedRoute(route: Json, h: string, canon: string -> string)
    ensures RouteAccepts(Namespaced(route, HTTP_NAMESPACE), h, canon) <==> RouteAccepts(route, h, canon)
  {
    if route.Obj? && "match" in route.fields && route.fields["match"].Arr? {
      var items := route.fields["match"].items;
      var copies := Namespaced(route, HTTP_NAMESPACE).fields["match"].items;
      assert forall i | 0 <= i < |items| :: copies[i] == Namespaced(items[i], HTTP_NAMESPACE);
      forall m | m in items { NamespacedMatcher(m, h, canon); }
      if m :| m in items && MatcherAccepts(m, h, canon) {
        var i :| 0 <= i < |items| && items[i] == m;
        assert copies[i] in copies;
      }
    }
  }

  function NamespacedOption(route: Option<Json>): Option<Json> {
    if route.Some? then Some(Namespaced(route.value, HTTP_NAMESPACE)) else None
  }

  lemma {:induction false} NamespacingKeepsRouting(top: seq<Json>, h: string, canon: string -> string)
    ensures ServedBy(NamespacedAll(top, HTTP_NAMESPACE), h, canon) ==
            NamespacedOption(ServedBy(top, h, canon))
  {
    if top != [] {
      NamespacedRoute(top[0], h, canon);
      NamespacingKeepsRouting(top[1..], h, canon);
      assert NamespacedAll(top, HTTP_NAMESPACE)[1..] == NamespacedAll(top[1..], HTTP_NAMESPACE);
    }
  }

  function Field(v: Json, k: string): Json {
    if v.Obj? && k in v.fields then v.fields[k] else Null
  }

  /** The routes of one server of a configuration. */
  function ServerRoutes(config: Json, server: string): Json {
    Field(Field(Field(Field(Field(config, "apps"), "http"), "servers"), server), "routes")
  }

  lemma ServersOfATree(httpRoutes: seq<Json>, routes: seq<Json>, subjects: seq<string>)
    ensures ServerRoutes(ConfigTree(httpRoutes, routes, subjects), "cadder_http") == Arr(httpRoutes)
    ensures ServerRoutes(ConfigTree(httpRoutes, routes, subjects), "cadder_https") == Arr(routes)
  {
    var tree := ConfigTree(httpRoutes, routes, subjects);
    assert "http" != "tls" && "cadder_http" != "cadder_https" by {
      assert |"http"| != |"tls"| && |"cadder_http"| != |"cadder_https"|;
    }
    assert "admin" != "apps" by { assert |"admin"| != |"apps"|; }
    assert "listen" != "routes" by { assert "listen"[0] != "routes"[0]; }
    assert Field(Field(Field(tree, "apps"), "http"), "servers").Obj?;
  }

  /**
   Isolation. In a conflict-free composition the HTTPS server sends a host to its owner's guard
   (or nowhere, if no route of the owner names an enabled host), the HTTP server to that guard's
   namespaced copy, a host nobody enabled goes nowhere, and certificates cover exactly the
   enabled hosts.
   */
  lemma CompositionIsolates(rs: seq<Registration>, routes: Routes, canon: string -> string, h: string)
    requires Composable(rs, canon)
    ensures var config := Composed(rs, routes, canon);
            var https, http := ServerRoutes(config, "cadder_https"), ServerRoutes(config, "cadder_http");
            && https.Arr? && http.Arr?
            && (forall i | 0 <= i < |rs| && h in ActiveDomains(rs[i]) ::
                  && ServedBy(https.items, h, canon) == Contribution(rs[i], routes, canon)
                  && ServedBy(http.items, h, canon) == NamespacedOption(Contribution(rs[i], routes, canon)))
            && (h !in AllActiveDomains(rs) ==>
                  ServedBy(https.items, h, canon) == None == ServedBy(http.items, h, canon))
  {
    var top := TopRoutes(rs, routes, canon);
    ServersOfATree(NamespacedAll(top, HTTP_NAMESPACE), top, Sorted(AllActiveDomains(rs)));
    NamespacingKeepsRouting(top, h, canon);
    forall i | 0 <= i < |rs| && h in ActiveDomains(rs[i]) { OwnersAreServed(rs, routes, canon, h, i); }
    if h !in AllActiveDomains(rs) {
      StrangersAreNotServed(rs, routes, canon, h);
    }
  }

  /**
   Certificates are asked for exactly the enabled hosts, whether or not a route names them, and come
   from the internal issuer.
   */
  lemma CertificatesCoverTheHosts(rs: seq<Registration>, routes: Routes, canon: string -> string)
    ensures var policies := Field(Field(Field(Field(Composed(rs, routes, canon), "apps"), "tls"), "automation"),
                                  "policies");
            && policies.Arr? && |policies.items| == 1
            && Field(policies.items[0], "issuers") == Arr([Obj(map["module" := Str("internal")])])
            && exists subjects :: Field(policies.items[0], "subjects") == Arr(Strings(subjects))
                 && forall h :: h in subjects <==> exists r :: r in rs && h in ActiveDomains(r)
  {
    hide TopRoutes;
    hide Strings;
    var subjects := Sorted(AllActiveDomains(rs));
    assert "subjects" != "issuers" by { assert |"subjects"| != |"issuers"|; }
    var policies := Field(Field(Field(Field(Composed(rs, routes, canon), "apps"), "tls"), "automation"), "policies");
    assert Field(policies.items[0], "subjects") == Arr(Strings(subjects));
  }

  // ---------------------------------------------------------------- order does not matter

  lemma {:induction false} TwoPlaces(rs: seq<Registration>, r: Registration)
    ensures multiset(rs)[r] >= 2 <==> exists i, j :: 0 <= i < j < |rs| && rs[i] == r && rs[j] == r
  {
    if rs != [] {
      var n := |rs| - 1;
      TwoPlaces(rs[..n], r);
      assert rs == rs[..n] + [rs[n]];
      if multiset(rs)[r] >= 2 && rs[n] == r {
        var i :| 0 <= i < n && rs[..n][i] == r;
      }
      if i, j :| 0 <= i < j < |rs| && rs[i] == r && rs[j] == r {
        assert rs[..n][i] == r;
      }
    }
  }

  lemma DisjointInAnyOrder(rs: seq<Registration>, other: seq<Registration>)
    requires Disjoint(rs) && multiset(rs) == multiset(other)
    ensures Disjoint(other)
  {
    forall i, j | 0 <= i < j < |other| ensures ActiveDomains(other[i]) !! ActiveDomains(other[j]) {
      assert other[i] in multiset(rs) && other[j] in multiset(rs);
      if other[i] == other[j] {
        TwoPlaces(other, other[i]);
        TwoPlaces(rs, other[i]);
      } else {
        var a :| 0 <= a < |rs| && rs[a] == other[i];
        var b :| 0 <= b < |rs| && rs[b] == other[j];
      }
    }
  }

  lemma SameMembers(rs: seq<Registration>, other: seq<Registration>)
    requires multiset(rs) == multiset(other)
    ensures forall r :: r in rs <==> r in other
  {
    forall r ensures r in rs <==> r in other { assert r in multiset(rs) <==> r in multiset(other); }
  }

  lemma OrderOfRoutesIsImmaterial(rs: seq<Registration>, other: seq<Registration>, routes: Routes,
                                  canon: string -> string, h: string)
    requires Composable(rs, canon) && multiset(rs) == multiset(other)
    ensures ServedBy(TopRoutes(rs, routes, canon), h, canon) == ServedBy(TopRoutes(other, routes, canon), h, canon)
  {
    SameMembers(rs, other);
    assert Composable(other, canon) by {
      DisjointInAnyOrder(rs, other);
      forall j | 0 <= j < |other| ensures NamesAreCanonical(other[j], canon) { assert other[j] in rs; }
    }
    if i :| 0 <= i < |rs| && h in ActiveDomains(rs[i]) {
      assert rs[i] in other;
      var j :| 0 <= j < |other| && other[j] == rs[i];
      OwnersAreServed(rs, routes, canon, h, i);
      OwnersAreServed(other, routes, canon, h, j);
    } else {
      StrangersAreNotServed(rs, routes, canon, h);
      forall j | 0 <= j < |other| ensures h !in ActiveDomains(other[j]) { assert other[j] in rs; }
      StrangersAreNotServed(other, routes, canon, h);
    }
  }

  /** Reordering the registrations changes no host's answer in either server, and no certificate. */
  lemma OrderIsImmaterial(rs: seq<Registration>, other: seq<Registration>, routes: Routes, canon: string -> string,
                          h: string)
    requires Composable(rs, canon) && multiset(rs) == multiset(other)
    ensures forall server | server in {"cadder_http", "cadder_https"} ::
              var a, b := ServerRoutes(Composed(rs, routes, canon), server),
                  ServerRoutes(Composed(other, routes, canon), server);
              a.Arr? && b.Arr? && ServedBy(a.items, h, canon) == ServedBy(b.items, h, canon)
    ensures AllActiveDomains(rs) == AllActiveDomains(other)
  {
    hide TopRoutes;
    SameMembers(rs, other);
    var a, b := TopRoutes(rs, routes, canon), TopRoutes(other, routes, canon);
    OrderOfRoutesIsImmaterial(rs, other, routes, canon, h);
    NamespacingKeepsRouting(a, h, canon);
    NamespacingKeepsRouting(b, h, canon);
    ServersOfATree(NamespacedAll(a, HTTP_NAMESPACE), a, Sorted(AllActiveDomains(rs)));
    ServersOfATree(NamespacedAll(b, HTTP_NAMESPACE), b, Sorted(AllActiveDomains(other)));
  }

  // ---------------------------------------------------------------- what the owner's routes answer

  /** The source routes that name an enabled host in some test. */
  ghost function Surviving(routes: seq<Json>, hosts: set<string>, canon: string -> string): seq<Json> {
    if routes == [] then []
    else
      (if TestedHosts(routes[0], canon) * hosts != {} then [routes[0]] else [])
      + Surviving(routes[1..], hosts, canon)
  }

  ghost function AnswersAll(routes: seq<Json>, h: string, canon: string -> string): seq<Json> {
    seq(|routes|, i requires 0 <= i < |routes| => Answers(routes[i], h, canon))
  }

  lemma AnswersToOneMore(route: Json, rest: seq<Json>, h: string, canon: string -> string)
    ensures AnswersAll([route] + rest, h, canon) == [Answers(route, h, canon)] + AnswersAll(rest, h, canon)
  {
    hide Answers;
  }

  /** For an enabled host, a guard's subroutes answer what the surviving source routes answer, in order. */
  lemma {:induction false} SubroutesAnswerAsWritten(routes: seq<Json>, hosts: set<string>, canon: string -> string,
                                                    h: string)
    requires h in hosts
    ensures AnswersAll(FilteredRoutes(routes, hosts, canon), h, canon) ==
            AnswersAll(Surviving(routes, hosts, canon), h, canon)
  {
    hide Answers;
    hide AnswersAll;
    hide Filtered;
    hide RetainsAny;
    hide TestedHosts;
    if routes != [] {
      FlagIsAboutTestedHosts(routes[0], hosts, canon);
      FilteringPreservesMeaning(routes[0], hosts, canon, h);
      SubroutesAnswerAsWritten(routes[1..], hosts, canon, h);
      var rest, kept := FilteredRoutes(routes[1..], hosts, canon), Surviving(routes[1..], hosts, canon);
      if RetainsAny(routes[0], hosts, canon) {
        AnswersToOneMore(Filtered(routes[0], hosts, canon), rest, h, canon);
        AnswersToOneMore(routes[0], kept, h, canon);
      } else {
        assert FilteredRoutes(routes, hosts, canon) == rest && Surviving(routes, hosts, canon) == kept;
      }
    }
  }

  // ---------------------------------------------------------------- what a request reaches

  /** Matching routes apply in order, and the first terminal one ends the matching. */
  predicate IsTerminal(route: Json) {
    Field(route, "terminal") == Bool(true)
  }

  function AppliedRoutes(routes: seq<Json>, h: string, canon: string -> string): seq<Json> {
    if routes == [] then []
    else if !RouteAccepts(routes[0], h, canon) then AppliedRoutes(routes[1..], h, canon)
    else [routes[0]] + (if IsTerminal(routes[0]) then [] else AppliedRoutes(routes[1..], h, canon))
  }

  /** The routes that the subroute handlers among these handlers lead to. */
  function HandledRoutes(handlers: seq<Json>): seq<Json> {
    if handlers == [] then []
    else
      var routes := Field(handlers[0], "routes");
      (if Field(handlers[0], "handler") == Str("subroute") && routes.Arr? then routes.items else [])
      + HandledRoutes(handlers[1..])
  }

  function SubroutesOf(route: Json): seq<Json> {
    var handlers := Field(route, "handle");
    if handlers.Arr? then HandledRoutes(handlers.items) else []
  }

  /** The subroutes that a request for host `h` gets to. */
  function Reached(routes: seq<Json>, h: string, canon: string -> string): seq<Json> {
    ReachedBy(AppliedRoutes(routes, h, canon))
  }

  function ReachedBy(applied: seq<Json>): seq<Json> {
    if applied == [] then [] else SubroutesOf(applied[0]) + ReachedBy(applied[1..])
  }

  /** A guard ends the matching and leads to the surviving routes of its registration. */
  lemma GuardsAreTerminal(r: Registration, routes: Routes, canon: string -> string)
    requires Contribution(r, routes, canon).Some?
    ensures var guard := Contribution(r, routes, canon).value;
            IsTerminal(guard) && SubroutesOf(guard) == RegistrationRoutes(r, routes, canon)
  {
    var guard := Contribution(r, routes, canon).value;
    var kept := RegistrationRoutes(r, routes, canon);
    assert "match" != "handle" && "match" != "terminal" && "handle" != "terminal" && "handler" != "routes" by {
      assert "match"[0] != "handle"[0] && "match"[0] != "terminal"[0] && "handle"[0] != "terminal"[0];
      assert "handler"[0] != "routes"[0];
    }
    var handler := Obj(map["handler" := Str("subroute"), "routes" := Arr(kept)]);
    assert Field(guard, "handle") == Arr([handler]);
    assert [handler][1..] == [];
    assert HandledRoutes([handler]) == kept + HandledRoutes([]);
  }

  lemma {:induction false} TopRoutesAreTerminal(rs: seq<Registration>, routes: Routes, canon: string -> string)
    ensures forall route | route in TopRoutes(rs, routes, canon) :: IsTerminal(route)
  {
    if rs != [] {
      var n := |rs| - 1;
      TopRoutesAreTerminal(rs[..n], routes, canon);
      if Contribution(rs[n], routes, canon).Some? {
        GuardsAreTerminal(rs[n], routes, canon);
      }
    }
  }

  lemma {:induction false} TerminalRoutesApplyAlone(top: seq<Json>, h: string, canon: string -> string)
    requires forall route | route in top :: IsTerminal(route)
    ensures AppliedRoutes(top, h, canon) == ToSeq(ServedBy(top, h, canon))
  {
    if top != [] {
      TerminalRoutesApplyAlone(top[1..], h, canon);
    }
  }

  /** Whatever the registrations, even if their hosts overlapped, a request never gets past one guard. */
  lemma OneGuardApplies(rs: seq<Registration>, routes: Routes, canon: string -> string, h: string)
    ensures AppliedRoutes(TopRoutes(rs, routes, canon), h, canon) ==
            ToSeq(ServedBy(TopRoutes(rs, routes, canon), h, canon))
    ensures |AppliedRoutes(TopRoutes(rs, routes, canon), h, canon)| <= 1
  {
    TopRoutesAreTerminal(rs, routes, canon);
    TerminalRoutesApplyAlone(TopRoutes(rs, routes, canon), h, canon);
  }

  lemma OwnersRoutesAreReached(rs: seq<Registration>, routes: Routes, canon: string -> string, h: string, owner: nat)
    requires Composable(rs, canon) && owner < |rs| && h in ActiveDomains(rs[owner])
    ensures Reached(TopRoutes(rs, routes, canon), h, canon) == RegistrationRoutes(rs[owner], routes, canon)
  {
    hide AppliedRoutes;
    hide TopRoutes;
    OneGuardApplies(rs, routes, canon, h);
    OwnersAreServed(rs, routes, canon, h, owner);
    var contribution := Contribution(rs[owner], routes, canon);
    if contribution.Some? {
      GuardsAreTerminal(rs[owner], routes, canon);
      assert [contribution.value][1..] == [];
      assert ReachedBy([contribution.value]) == SubroutesOf(contribution.value) + ReachedBy([]);
    }
  }

  lemma NamespacedField(v: Json, k: string)
    requires k != "@id"
    ensures Field(Namespaced(v, HTTP_NAMESPACE), k) == Namespaced(Field(v, k), HTTP_NAMESPACE)
  {}

  /** Namespacing keeps strings, flags and the items of lists. */
  lemma NamespacedKinds(v: Json)
    ensures var copy := Namespaced(v, HTTP_NAMESPACE);
            && (v.Str? || v.Bool? ==> copy == v)
            && (copy.Str? <==> v.Str?) && (copy.Bool? <==> v.Bool?) && (copy.Arr? <==> v.Arr?)
            && (v.Arr? ==> copy.items == NamespacedAll(v.items, HTTP_NAMESPACE))
  {}

  lemma {:induction false} NamespacedHandlers(handlers: seq<Json>)
    ensures HandledRoutes(NamespacedAll(handlers, HTTP_NAMESPACE)) ==
            NamespacedAll(HandledRoutes(handlers), HTTP_NAMESPACE)
  {
    hide Namespaced;
    if handlers != [] {
      NamespacedKinds(Field(handlers[0], "routes"));
      NamespacedKinds(Field(handlers[0], "handler"));
      assert "routes" != "@id" && "handler" != "@id" by { assert |"routes"| != |"@id"| && |"handler"| != |"@id"|; }
      NamespacedField(handlers[0], "routes");
      NamespacedField(handlers[0], "handler");
      NamespacedHandlers(handlers[1..]);
      assert NamespacedAll(handlers, HTTP_NAMESPACE)[1..] == NamespacedAll(handlers[1..], HTTP_NAMESPACE);
    }
  }

  lemma NamespacedSubroutes(route: Json)
    ensures SubroutesOf(Namespaced(route, HTTP_NAMESPACE)) == NamespacedAll(SubroutesOf(route), HTTP_NAMESPACE)
    ensures IsTerminal(Namespaced(route, HTTP_NAMESPACE)) <==> IsTerminal(route)
  {
    assert "handle" != "@id" && "terminal" != "@id" by { assert |"handle"| != |"@id"| && |"terminal"| != |"@id"|; }
    NamespacedField(route, "handle");
    NamespacedField(route, "terminal");
    if Field(route, "handle").Arr? {
      NamespacedHandlers(Field(route, "handle").items);
      assert Namespaced(Field(route, "handle"), HTTP_NAMESPACE).items ==
             NamespacedAll(Field(route, "handle").items, HTTP_NAMESPACE);
    }
  }

  lemma {:induction false} NamespacingKeepsApplication(top: seq<Json>, h: string, canon: string -> string)
    ensures AppliedRoutes(NamespacedAll(top, HTTP_NAMESPACE), h, canon) ==
            NamespacedAll(AppliedRoutes(top, h, canon), HTTP_NAMESPACE)
  {
    hide IsTerminal;
    hide RouteAccepts;
    hide SubroutesOf;
    hide Namespaced;
    if top != [] {
      NamespacedRoute(top[0], h, canon);
      NamespacedSubroutes(top[0]);
      NamespacingKeepsApplication(top[1..], h, canon);
      assert NamespacedAll(top, HTTP_NAMESPACE)[1..] == NamespacedAll(top[1..], HTTP_NAMESPACE);
    }
  }

  lemma {:induction false} NamespacingKeepsReach(applied: seq<Json>)
    ensures ReachedBy(NamespacedAll(applied, HTTP_NAMESPACE)) == NamespacedAll(ReachedBy(applied), HTTP_NAMESPACE)
  {
    hide SubroutesOf;
    if applied != [] {
      NamespacedSubroutes(applied[0]);
      NamespacingKeepsReach(applied[1..]);
      assert NamespacedAll(applied, HTTP_NAMESPACE)[1..] == NamespacedAll(applied[1..], HTTP_NAMESPACE);
    }
  }

  /**
   What a request reaches. Since every guard is terminal, a request for a host gets, in the HTTPS
   server, exactly to the surviving routes of the host's owner, and in the HTTP server to their
   namespaced copies; for an owner with routes of its own these answer as its source routes do.
   */
  lemma HostsReachTheirOwnersRoutes(rs: seq<Registration>, routes: Routes, canon: string -> string, h: string,
                                    owner: nat)
    requires Composable(rs, canon) && owner < |rs| && h in ActiveDomains(rs[owner])
    ensures var config := Composed(rs, routes, canon);
            var https, http := ServerRoutes(config, "cadder_https"), ServerRoutes(config, "cadder_http");
            && https.Arr? && http.Arr?
            && Reached(https.items, h, canon) == RegistrationRoutes(rs[owner], routes, canon)
            && Reached(http.items, h, canon) == NamespacedAll(Reached(https.items, h, canon), HTTP_NAMESPACE)
    ensures rs[owner].id in routes ==>
              AnswersAll(RegistrationRoutes(rs[owner], routes, canon), h, canon) ==
              AnswersAll(Surviving(routes[rs[owner].id], ActiveDomains(rs[owner]), canon), h, canon)
  {
    hide TopRoutes;
    hide AppliedRoutes;
    hide ReachedBy;
    var top := TopRoutes(rs, routes, canon);
    ServersOfATree(NamespacedAll(top, HTTP_NAMESPACE), top, Sorted(AllActiveDomains(rs)));
    OwnersRoutesAreReached(rs, routes, canon, h, owner);
    NamespacingKeepsApplication(top, h, canon);
    NamespacingKeepsReach(AppliedRoutes(top, h, canon));
    if rs[owner].id in routes {
      SubroutesAnswerAsWritten(routes[rs[owner].id], ActiveDomains(rs[owner]), canon, h);
    }
  }

  // ---------------------------------------------------------------- two servers

  /**
   The two servers of the document differ in their ids alone: at every place the HTTP server has an
   id exactly where the HTTPS server has one, with `http_` before it. Some id occurs in both
   servers exactly when an id of the HTTPS routes is `http_` followed by another of their ids.
   */
  lemma ServersShareAnId(rs: seq<Registration>, routes: Routes, canon: string -> string)
    ensures var config := Composed(rs, routes, canon);
            var https, http := ServerRoutes(config, "cadder_https"), ServerRoutes(config, "cadder_http");
            && (forall path ::
                  IdAt(http, path) == if IdAt(https, path).None? then None
                                      else Some("http_" + IdAt(https, path).value))
            && Anonymous(http) == Anonymous(https)
            && ((exists id :: HasId(http, id) && HasId(https, id)) <==>
                (exists a, b :: HasId(https, a) && HasId(https, b) && b == "http_" + a))
  {
    hide TopRoutes;
    hide HasId;
    hide IdAt;
    var top := TopRoutes(rs, routes, canon);
    ServersOfATree(NamespacedAll(top, HTTP_NAMESPACE), top, Sorted(AllActiveDomains(rs)));
    assert Namespaced(Arr(top), "http_") == Arr(NamespacedAll(top, HTTP_NAMESPACE));
    forall path { NamespacingPrefixesEveryId(Arr(top), "http_", path); }
    NamespacingChangesOnlyIds(Arr(top), "http_");
    CopiesShareAnId(Arr(top), "http_");
  }

  function Server(config: Json, server: string): Json {
    Field(Field(Field(Field(config, "apps"), "http"), "servers"), server)
  }

  lemma ServersOf(rs: seq<Registration>, routes: Routes, canon: string -> string)
    ensures var config := Composed(rs, routes, canon);
            var http, https := Server(config, "cadder_http"), Server(config, "cadder_https");
            && http.Obj? && "tls_connection_policies" !in http.fields
            && Field(http, "listen") == Arr(Strings(["127.0.0.1:80", "[::1]:80"]))
            && https.Obj? && Field(https, "listen") == Arr(Strings(["127.0.0.1:443", "[::1]:443"]))
            && Field(https, "tls_connection_policies") == Arr([Obj(map[])])
  {
    hide TopRoutes;
    hide Strings;
    hide Sorted;
    hide AllActiveDomains;
    assert "http" != "tls" && "cadder_http" != "cadder_https" && "admin" != "apps" by {
      assert |"http"| != |"tls"| && |"cadder_http"| != |"cadder_https"| && |"admin"| != |"apps"|;
    }
    assert "listen" != "routes" && "tls_connection_policies" != "routes" && "tls_connection_policies" != "listen" by {
      assert "listen"[0] != "routes"[0] && "tls_connection_policies"[0] != "routes"[0]
             && "tls_connection_policies"[0] != "listen"[0];
    }
  }

  lemma AdministrationListens(rs: seq<Registration>, routes: Routes, canon: string -> string)
    ensures Field(Field(Composed(rs, routes, canon), "admin"), "listen") == Str("localhost:2019")
  {
    hide TopRoutes;
    hide Strings;
    hide Sorted;
    hide AllActiveDomains;
    assert "admin" != "apps" by { assert |"admin"| != |"apps"|; }
  }

  /**
   The servers listen on the loopback addresses only, HTTP on port 80 and HTTPS on port 443 with
   TLS, which the HTTP server has not; the administration listens locally too.
   */
  lemma ServersListenApart(rs: seq<Registration>, routes: Routes, canon: string -> string)
    ensures var config := Composed(rs, routes, canon);
            var http, https := Server(config, "cadder_http"), Server(config, "cadder_https");
            && Field(http, "listen") == Arr([Str("127.0.0.1:80"), Str("[::1]:80")])
            && Field(https, "listen") == Arr([Str("127.0.0.1:443"), Str("[::1]:443")])
            && (forall a | a in Field(http, "listen").items :: a !in Field(https, "listen").items)
            && Field(https, "tls_connection_policies") == Arr([Obj(map[])])
            && Field(http, "tls_connection_policies") == Null
    ensures Field(Field(Composed(rs, routes, canon), "admin"), "listen") == Str("localhost:2019")
  {
    AdministrationListens(rs, routes, canon);
    hide Composed;
    hide Server;
    ServersOf(rs, routes, canon);
    assert Strings(["127.0.0.1:80", "[::1]:80"]) == [Str("127.0.0.1:80"), Str("[::1]:80")];
    assert Strings(["127.0.0.1:443", "[::1]:443"]) == [Str("127.0.0.1:443"), Str("[::1]:443")];
    AddressesDiffer();
  }

  lemma AddressesDiffer()
    ensures {"127.0.0.1:80", "[::1]:80"} !! {"127.0.0.1:443", "[::1]:443"}
  {
    assert |"127.0.0.1:80"| == 12 && |"[::1]:80"| == 8 && |"127.0.0.1:443"| == 13 && |"[::1]:443"| == 9;
  }

  /** Without routes of its own, a registration is served by one terminal placeholder for each of its hosts. */
  lemma PlaceholdersCoverTheHosts(r: Registration, routes: Routes, canon: string -> string, h: string)
    requires NamesAreCanonical(r, canon) && r.id !in routes
    ensures (exists route :: route in RegistrationRoutes(r, routes, canon) && RouteAccepts(route, h, canon)) <==>
            h in ActiveDomains(r)
    ensures forall route | route in RegistrationRoutes(r, routes, canon) :: IsTerminal(route)
  {
    var hosts := Sorted(ActiveDomains(r));
    var kept := PlaceholderRoutes(hosts);
    assert "match" != "handle" && "match" != "terminal" && "handle" != "terminal" by {
      assert "match"[0] != "handle"[0] && "match"[0] != "terminal"[0] && "handle"[0] != "terminal"[0];
    }
    forall i | 0 <= i < |kept| ensures RouteAccepts(kept[i], h, canon) <==> hosts[i] == h {
      StringsHost([hosts[i]], canon);
      assert kept[i].fields["match"].items == [Obj(map["host" := Arr(Strings([hosts[i]]))])];
      assert hosts[i] in ActiveDomains(r);
      if hosts[i] == h {
        assert MatcherAccepts(kept[i].fields["match"].items[0], h, canon);
      }
    }
    if h in ActiveDomains(r) {
      var i :| 0 <= i < |hosts| && hosts[i] == h;
      assert kept[i] in kept;
    }
  }
}
