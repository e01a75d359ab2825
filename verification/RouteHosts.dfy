/** JSON trees as Caddy configuration uses them; object keys are unordered. */
module Json {
  datatype Json =
    | Null
    | Bool(b: bool)
    | Number(n: int)
    | Str(s: string)
    | Arr(items: seq<Json>)
    | Obj(fields: map<string, Json>)
}

/**
 The rewriting of one route tree: keeping only enabled hosts, collecting hosts, and
 prefixing ids. `canon` stands for `canonicalize_domain`, of which nothing is assumed here.
 */
module RouteHosts {
  import opened Wrappers
  import opened Json

  /** Whether `items`, under key `k`, is the list of a host test. */
  predicate IsHostTest(k: string, v: Json) {
    k == "host" && v.Arr?
  }

  predicate Names(item: Json, hosts: set<string>, canon: string -> string) {
    item.Str? && canon(item.s) in hosts
  }

  function Retained(items: seq<Json>, hosts: set<string>, canon: string -> string): seq<Json> {
    if items == [] then []
    else (if Names(items[0], hosts, canon) then [items[0]] else []) + Retained(items[1..], hosts, canon)
  }

  /** The tree `filter_hosts_recursive` leaves behind; what it retains are strings, which the walk then leaves alone. */
  function Filtered(v: Json, hosts: set<string>, canon: string -> string): Json {
    match v
    case Obj(m) =>
      Obj(map k | k in m ::
        if IsHostTest(k, m[k]) then Arr(Retained(m[k].items, hosts, canon)) else Filtered(m[k], hosts, canon))
    case Arr(items) => Arr(seq(|items|, i requires 0 <= i < |items| => Filtered(items[i], hosts, canon)))
    case _ => v
  }

  predicate RetainsUnder(k: string, v: Json, hosts: set<string>, canon: string -> string)
    decreases v, 1
  {
    if IsHostTest(k, v) then exists i :: 0 <= i < |v.items| && Names(v.items[i], hosts, canon)
    else RetainsAny(v, hosts, canon)
  }

  /** The flag `filter_hosts_recursive` raises. */
  predicate RetainsAny(v: Json, hosts: set<string>, canon: string -> string)
    decreases v, 0
  {
    match v
    case Obj(m) => exists k :: k in m && RetainsUnder(k, m[k], hosts, canon)
    case Arr(items) => exists i :: 0 <= i < |items| && RetainsAny(items[i], hosts, canon)
    case _ => false
  }

  /** `filter_route_hosts`. */
  function FilterRouteHosts(route: Json, hosts: set<string>, canon: string -> string): Option<Json> {
    if RetainsAny(route, hosts, canon) then Some(Filtered(route, hosts, canon)) else None
  }

  function HostStrings(items: seq<Json>, canon: string -> string): set<string> {
    set j | j in items && j.Str? :: canon(j.s)
  }

  /** `collect_hosts`: also looks inside the items of a host list. */
  function CollectHosts(v: Json, canon: string -> string): set<string> {
    match v
    case Obj(m) =>
      (if "host" in m && m["host"].Arr? then HostStrings(m["host"].items, canon) else {})
      + (set k, h | k in m && h in CollectHosts(m[k], canon) :: h)
    case Arr(items) => set i, h | 0 <= i < |items| && h in CollectHosts(items[i], canon) :: h
    case _ => {}
  }

  // ---------------------------------------------------------------- meaning

  /** What the host tests of a tree answer for host `h`: every host list becomes that answer. */
  ghost function Answers(v: Json, h: string, canon: string -> string): Json {
    match v
    case Obj(m) =>
      Obj(map k | k in m ::
        if IsHostTest(k, m[k]) then Bool(h in HostStrings(m[k].items, canon)) else Answers(m[k], h, canon))
    case Arr(items) => Arr(seq(|items|, i requires 0 <= i < |items| => Answers(items[i], h, canon)))
    case _ => v
  }

  /** The same tree with every host test answering no. */
  ghost function Refusals(v: Json): Json {
    match v
    case Obj(m) => Obj(map k | k in m :: if IsHostTest(k, m[k]) then Bool(false) else Refusals(m[k]))
    case Arr(items) => Arr(seq(|items|, i requires 0 <= i < |items| => Refusals(items[i])))
    case _ => v
  }

  lemma {:induction false} RetainedNames(items: seq<Json>, hosts: set<string>, canon: string -> string)
    ensures forall j :: j in Retained(items, hosts, canon) <==> j in items && Names(j, hosts, canon)
  {
    if items != [] {
      RetainedNames(items[1..], hosts, canon);
    }
  }

  lemma RetainedHosts(items: seq<Json>, hosts: set<string>, canon: string -> string)
    ensures HostStrings(Retained(items, hosts, canon), canon) == HostStrings(items, canon) * hosts
  {
    RetainedNames(items, hosts, canon);
  }

  /** Filtering changes no answer for an enabled host and makes every test refuse any other host. */
  lemma {:induction false} FilteringPreservesMeaning(v: Json, hosts: set<string>, canon: string -> string, h: string)
    ensures Answers(Filtered(v, hosts, canon), h, canon) == if h in hosts then Answers(v, h, canon) else Refusals(v)
  {
    match v
    case Obj(m) =>
      var f := Filtered(v, hosts, canon).fields;
      forall k | k in m
        ensures IsHostTest(k, f[k]) <==> IsHostTest(k, m[k])
        ensures IsHostTest(k, m[k]) ==> HostStrings(f[k].items, canon) == HostStrings(m[k].items, canon) * hosts
        ensures !IsHostTest(k, m[k]) ==>
          Answers(f[k], h, canon) == if h in hosts then Answers(m[k], h, canon) else Refusals(m[k])
      {
        if IsHostTest(k, m[k]) {
          RetainedHosts(m[k].items, hosts, canon);
        } else {
          FilteringPreservesMeaning(m[k], hosts, canon, h);
          FilteredKeepsItsShape(m[k], hosts, canon);
        }
      }
    case Arr(items) =>
      forall i | 0 <= i < |items| { FilteringPreservesMeaning(items[i], hosts, canon, h); }
    case _ =>
  }

  lemma FilteredKeepsItsShape(v: Json, hosts: set<string>, canon: string -> string)
    ensures Filtered(v, hosts, canon).Arr? <==> v.Arr?
  {}

  lemma {:induction false} RetainedTwice(items: seq<Json>, first: set<string>, second: set<string>,
                                         canon: string -> string)
    ensures Retained(Retained(items, first, canon), second, canon) == Retained(items, first * second, canon)
  {
    if items != [] {
      RetainedTwice(items[1..], first, second, canon);
      if Names(items[0], first, canon) {
        var kept := Retained(items, first, canon);
        assert kept[0] == items[0] && kept[1..] == Retained(items[1..], first, canon);
      } else {
        assert Retained(items, first, canon) == Retained(items[1..], first, canon);
      }
    }
  }

  /** Filtering twice is filtering by the hosts enabled both times. */
  lemma {:induction false} FilteringComposes(v: Json, first: set<string>, second: set<string>, canon: string -> string)
    ensures Filtered(Filtered(v, first, canon), second, canon) == Filtered(v, first * second, canon)
  {
    match v
    case Obj(m) =>
      var f := Filtered(v, first, canon).fields;
      forall k | k in m
        ensures IsHostTest(k, f[k]) <==> IsHostTest(k, m[k])
        ensures IsHostTest(k, m[k]) ==>
          Retained(f[k].items, second, canon) == Retained(m[k].items, first * second, canon)
        ensures !IsHostTest(k, m[k]) ==> Filtered(f[k], second, canon) == Filtered(m[k], first * second, canon)
      {
        if IsHostTest(k, m[k]) {
          RetainedTwice(m[k].items, first, second, canon);
        } else {
          FilteringComposes(m[k], first, second, canon);
          FilteredKeepsItsShape(m[k], first, canon);
        }
      }
    case Arr(items) =>
      forall i | 0 <= i < |items| { FilteringComposes(items[i], first, second, canon); }
    case _ =>
  }

  lemma RetainedStringsHideNothing(items: seq<Json>, hosts: set<string>, canon: string -> string)
    ensures CollectHosts(Arr(Retained(items, hosts, canon)), canon) == {}
  {
    RetainedNames(items, hosts, canon);
    var kept := Retained(items, hosts, canon);
    forall i | 0 <= i < |kept| ensures CollectHosts(kept[i], canon) == {} {
      assert kept[i] in kept;
    }
  }

  ghost function TestedUnder(k: string, v: Json, canon: string -> string): set<string>
    decreases v, 1
  {
    if IsHostTest(k, v) then HostStrings(v.items, canon) else TestedHosts(v, canon)
  }

  /** The hosts that some host test of the tree accepts. */
  ghost function TestedHosts(v: Json, canon: string -> string): set<string>
    decreases v, 0
  {
    match v
    case Obj(m) =>
      set k, h | k in m && h in TestedUnder(k, m[k], canon) :: h
    case Arr(items) => set i, h | 0 <= i < |items| && h in TestedHosts(items[i], canon) :: h
    case _ => {}
  }

  lemma TestRetainsExactly(items: seq<Json>, hosts: set<string>, canon: string -> string)
    ensures (exists i :: 0 <= i < |items| && Names(items[i], hosts, canon)) <==> HostStrings(items, canon) * hosts != {}
  {
    if i :| 0 <= i < |items| && Names(items[i], hosts, canon) {
      assert canon(items[i].s) in HostStrings(items, canon) * hosts;
    }
    if h :| h in HostStrings(items, canon) * hosts {
      var j :| j in items && j.Str? && canon(j.s) == h;
      var i :| 0 <= i < |items| && items[i] == j;
      assert Names(items[i], hosts, canon);
    }
  }

  lemma {:induction false} FlagIsAboutTestedHosts(v: Json, hosts: set<string>, canon: string -> string)
    ensures RetainsAny(v, hosts, canon) <==> TestedHosts(v, canon) * hosts != {}
  {
    match v
    case Obj(m) =>
      forall k | k in m && !IsHostTest(k, m[k]) { FlagIsAboutTestedHosts(m[k], hosts, canon); }
      forall k | k in m ensures RetainsUnder(k, m[k], hosts, canon) <==> TestedUnder(k, m[k], canon) * hosts != {} {
        if IsHostTest(k, m[k]) {
          TestRetainsExactly(m[k].items, hosts, canon);
        }
      }
      if RetainsAny(v, hosts, canon) {
        var k :| k in m && RetainsUnder(k, m[k], hosts, canon);
        var h :| h in TestedUnder(k, m[k], canon) * hosts;
        assert h in TestedHosts(v, canon);
      }
      if h :| h in TestedHosts(v, canon) * hosts {
        var k :| k in m && h in TestedUnder(k, m[k], canon);
        assert h in TestedUnder(k, m[k], canon) * hosts;
      }
    case Arr(items) =>
      forall i | 0 <= i < |items| { FlagIsAboutTestedHosts(items[i], hosts, canon); }
      if RetainsAny(v, hosts, canon) {
        var i :| 0 <= i < |items| && RetainsAny(items[i], hosts, canon);
        var h :| h in TestedHosts(items[i], canon) * hosts;
        assert h in TestedHosts(v, canon);
      }
      if h :| h in TestedHosts(v, canon) * hosts {
        var i :| 0 <= i < |items| && h in TestedHosts(items[i], canon);
        assert h in TestedHosts(items[i], canon) * hosts;
      }
    case _ =>
  }

  lemma NamesOfArray(items: seq<Json>, hosts: set<string>, canon: string -> string)
    requires forall i | 0 <= i < |items| ::
        CollectHosts(Filtered(items[i], hosts, canon), canon) == TestedHosts(items[i], canon) * hosts
    ensures CollectHosts(Filtered(Arr(items), hosts, canon), canon) == TestedHosts(Arr(items), canon) * hosts
  {
    var f := Filtered(Arr(items), hosts, canon).items;
    forall h | h in TestedHosts(Arr(items), canon) * hosts ensures h in CollectHosts(Arr(f), canon) {
      var i :| 0 <= i < |items| && h in TestedHosts(items[i], canon);
      assert h in CollectHosts(f[i], canon);
    }
  }

  ghost predicate NamesUnder(k: string, before: Json, after: Json, hosts: set<string>, canon: string -> string) {
    && (IsHostTest(k, after) <==> IsHostTest(k, before))
    && TestedUnder(k, before, canon) * hosts ==
       CollectHosts(after, canon) + (if IsHostTest(k, after) then HostStrings(after.items, canon) else {})
  }

  lemma NamesOfObject(m: map<string, Json>, f: map<string, Json>, hosts: set<string>, canon: string -> string)
    requires f.Keys == m.Keys && forall k | k in m :: NamesUnder(k, m[k], f[k], hosts, canon)
    ensures CollectHosts(Obj(f), canon) == TestedHosts(Obj(m), canon) * hosts
  {
    forall h | h in TestedHosts(Obj(m), canon) * hosts ensures h in CollectHosts(Obj(f), canon) {
      var k :| k in m && h in TestedUnder(k, m[k], canon);
      assert NamesUnder(k, m[k], f[k], hosts, canon);
      assert h in TestedUnder(k, m[k], canon) * hosts;
      if h in CollectHosts(f[k], canon) {
        assert k in f;
      } else {
        assert k == "host" && f["host"].Arr? && h in HostStrings(f["host"].items, canon);
      }
    }
    forall h | h in CollectHosts(Obj(f), canon) ensures h in TestedHosts(Obj(m), canon) * hosts {
      if "host" in f && f["host"].Arr? && h in HostStrings(f["host"].items, canon) {
        assert NamesUnder("host", m["host"], f["host"], hosts, canon);
        assert h in TestedUnder("host", m["host"], canon);
      } else {
        var k :| k in f && h in CollectHosts(f[k], canon);
        assert NamesUnder(k, m[k], f[k], hosts, canon);
        assert h in TestedUnder(k, m[k], canon);
      }
    }
  }

  /** A filtered tree names exactly the enabled hosts that its tests accepted. */
  lemma {:induction false} FilteredNamesExactly(v: Json, hosts: set<string>, canon: string -> string)
    ensures CollectHosts(Filtered(v, hosts, canon), canon) == TestedHosts(v, canon) * hosts
  {
    match v
    case Obj(m) =>
      var f := Filtered(v, hosts, canon).fields;
      forall k | k in m
        ensures NamesUnder(k, m[k], f[k], hosts, canon)
      {
        if IsHostTest(k, m[k]) {
          RetainedStringsHideNothing(m[k].items, hosts, canon);
          RetainedHosts(m[k].items, hosts, canon);
        } else {
          FilteredNamesExactly(m[k], hosts, canon);
          FilteredKeepsItsShape(m[k], hosts, canon);
        }
      }
      NamesOfObject(m, f, hosts, canon);
    case Arr(items) =>
      forall i | 0 <= i < |items| { FilteredNamesExactly(items[i], hosts, canon); }
      NamesOfArray(items, hosts, canon);
    case _ =>
  }

  /** A route survives exactly when its filtered tree still names a host, and it names only enabled ones. */
  lemma SurvivingRoutesNameAHost(route: Json, hosts: set<string>, canon: string -> string)
    ensures FilterRouteHosts(route, hosts, canon).Some? <==> CollectHosts(Filtered(route, hosts, canon), canon) != {}
    ensures CollectHosts(Filtered(route, hosts, canon), canon) <= hosts
  {
    FlagIsAboutTestedHosts(route, hosts, canon);
    FilteredNamesExactly(route, hosts, canon);
  }

  /** Extraction sees every host that a test accepts, so no tested host goes unregistered. */
  lemma {:induction false} CollectedHostsCoverTheTests(v: Json, canon: string -> string)
    ensures TestedHosts(v, canon) <= CollectHosts(v, canon)
  {
    match v
    case Obj(m) =>
      forall k | k in m ensures TestedUnder(k, m[k], canon) <= CollectHosts(v, canon) {
        CollectedHostsCoverTheTests(m[k], canon);
      }
    case Arr(items) => forall i | 0 <= i < |items| { CollectedHostsCoverTheTests(items[i], canon); }
    case _ =>
  }

  // ---------------------------------------------------------------- ids

  /** `namespace_config_ids`. */
  function Namespaced(v: Json, prefix: string): Json {
    match v
    case Obj(m) =>
      Obj(map k | k in m :: if k == "@id" && m[k].Str? then Str(prefix + m[k].s) else Namespaced(m[k], prefix))
    case Arr(items) => Arr(seq(|items|, i requires 0 <= i < |items| => Namespaced(items[i], prefix)))
    case _ => v
  }

  /** A place in a tree: the keys and indexes that lead to it. */
  datatype Turn = Key(k: string) | Index(i: nat)

  ghost function IdAt(v: Json, path: seq<Turn>): Option<string>
    decreases |path|
  {
    if path == [] then
      if v.Obj? && "@id" in v.fields && v.fields["@id"].Str? then Some(v.fields["@id"].s) else None
    else match path[0]
      case Key(k) => if v.Obj? && k in v.fields then IdAt(v.fields[k], path[1..]) else None
      case Index(i) => if v.Arr? && i < |v.items| then IdAt(v.items[i], path[1..]) else None
  }

  ghost predicate HasId(v: Json, id: string) {
    exists path :: IdAt(v, path) == Some(id)
  }

  /** The tree with its ids blanked out. */
  ghost function Anonymous(v: Json): Json {
    match v
    case Obj(m) => Obj(map k | k in m :: if k == "@id" && m[k].Str? then Null else Anonymous(m[k]))
    case Arr(items) => Arr(seq(|items|, i requires 0 <= i < |items| => Anonymous(items[i])))
    case _ => v
  }

  /** Namespacing prefixes the id at every place where there was one, and makes no other. */
  lemma {:induction false} NamespacingPrefixesEveryId(v: Json, prefix: string, path: seq<Turn>)
    ensures IdAt(Namespaced(v, prefix), path) ==
            (if IdAt(v, path).Some? then Some(prefix + IdAt(v, path).value) else None)
    decreases |path|
  {
    if path != [] {
      match path[0]
      case Key(k) =>
        if v.Obj? && k in v.fields {
          NamespacingPrefixesEveryId(v.fields[k], prefix, path[1..]);
        }
      case Index(i) =>
        if v.Arr? && i < |v.items| {
          NamespacingPrefixesEveryId(v.items[i], prefix, path[1..]);
        }
    }
  }

  lemma {:induction false} NamespacingChangesOnlyIds(v: Json, prefix: string)
    ensures Anonymous(Namespaced(v, prefix)) == Anonymous(v)
  {
    match v
    case Obj(m) =>
      var copy, blank := Namespaced(v, prefix).fields, Anonymous(v).fields;
      forall k | k in m ensures Anonymous(Obj(copy)).fields[k] == blank[k] {
        NamespacingChangesOnlyIds(m[k], prefix);
        assert copy[k].Str? <==> m[k].Str?;
      }
      assert Anonymous(Obj(copy)).fields == blank;
    case Arr(items) =>
      var copy, blank := Namespaced(v, prefix).items, Anonymous(v).items;
      forall i | 0 <= i < |items| ensures Anonymous(Arr(copy)).items[i] == blank[i] {
        NamespacingChangesOnlyIds(items[i], prefix);
      }
      assert Anonymous(Arr(copy)).items == blank;
    case _ =>
  }

  /**
   A tree and its namespaced copy share an id exactly when some id of the tree is the prefix
   followed by another of its ids; ids that differ stay different.
   */
  lemma CopiesShareAnId(v: Json, prefix: string)
    ensures (exists id :: HasId(v, id) && HasId(Namespaced(v, prefix), id)) <==>
            (exists a, b :: HasId(v, a) && HasId(v, b) && b == prefix + a)
    ensures forall p, q | IdAt(v, p) != IdAt(v, q) :: IdAt(Namespaced(v, prefix), p) != IdAt(Namespaced(v, prefix), q)
  {
    forall p { NamespacingPrefixesEveryId(v, prefix, p); }
    if id :| HasId(v, id) && HasId(Namespaced(v, prefix), id) {
      var p :| IdAt(Namespaced(v, prefix), p) == Some(id);
      assert HasId(v, IdAt(v, p).value);
    }
    if a, b :| HasId(v, a) && HasId(v, b) && b == prefix + a {
      var p :| IdAt(v, p) == Some(a);
      assert IdAt(Namespaced(v, prefix), p) == Some(b);
    }
    forall p, q | IdAt(v, p) != IdAt(v, q) ensures IdAt(Namespaced(v, prefix), p) != IdAt(Namespaced(v, prefix), q) {
      if IdAt(v, p).Some? && IdAt(v, q).Some? {
        var a, b := IdAt(v, p).value, IdAt(v, q).value;
        assert (prefix + a)[|prefix|..] == a && (prefix + b)[|prefix|..] == b;
      }
    }
  }
}
