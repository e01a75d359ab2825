/**
 The loops that rewrite a route tree, proved to compute the functions of `RouteHosts`. The tree
 they change in place is a value here, returned with its changes.
 */
module RouteRewriting {
  import opened Json
  import opened RouteHosts

  method RetainHosts(items: seq<Json>, hosts: set<string>, canon: string -> string) returns (kept: seq<Json>, any: bool)
    ensures kept == Retained(items, hosts, canon)
    ensures any <==> exists i :: 0 <= i < |items| && Names(items[i], hosts, canon)
  {
    kept, any := [], false;
    for i := 0 to |items|
      invariant kept + Retained(items[i..], hosts, canon) == Retained(items, hosts, canon)
      invariant any <==> exists j :: 0 <= j < i && Names(items[j], hosts, canon)
    {
      assert items[i..][1..] == items[i + 1..];
      if Names(items[i], hosts, canon) {
        kept, any := kept + [items[i]], true;
      }
    }
  }

  /** What `retain` leaves are strings: walking into them afterwards changes nothing and raises no flag. */
  lemma RetainedStringsStay(items: seq<Json>, hosts: set<string>, canon: string -> string)
    ensures var kept := Arr(Retained(items, hosts, canon));
            Filtered(kept, hosts, canon) == kept && !RetainsAny(kept, hosts, canon)
  {
    RetainedNames(items, hosts, canon);
    var kept := Retained(items, hosts, canon);
    forall i | 0 <= i < |kept|
      ensures Filtered(kept[i], hosts, canon) == kept[i] && !RetainsAny(kept[i], hosts, canon)
    {
      assert kept[i] in kept;
    }
  }

  /** `filter_hosts_recursive`. */
  method FilterHostsRecursive(v: Json, hosts: set<string>, canon: string -> string) returns (result: Json, any: bool)
    ensures result == Filtered(v, hosts, canon) && any == RetainsAny(v, hosts, canon)
    decreases v, 3
  {
    match v {
      case Obj(m) =>
        var fields;
        fields, any := FilterFields(v, hosts, canon);
        result := Obj(fields);
      case Arr(items) =>
        var filtered;
        filtered, any := FilterItems(v, items, hosts, canon);
        result := Arr(filtered);
      case _ =>
        result, any := v, false;
    }
  }

  /** The walk through the items of a list, all of them parts of `whole`. */
  method FilterItems(ghost whole: Json, items: seq<Json>, hosts: set<string>, canon: string -> string)
    returns (filtered: seq<Json>, any: bool)
    requires forall item | item in items :: item < whole
    ensures Arr(filtered) == Filtered(Arr(items), hosts, canon) && any == RetainsAny(Arr(items), hosts, canon)
    decreases whole, 0
  {
    filtered, any := [], false;
    for i := 0 to |items|
      invariant |filtered| == i && forall j | 0 <= j < i :: filtered[j] == Filtered(items[j], hosts, canon)
      invariant any <==> exists j :: 0 <= j < i && RetainsAny(items[j], hosts, canon)
    {
      assert items[i] in items;
      var item, found := FilterHostsRecursive(items[i], hosts, canon);
      filtered, any := filtered + [item], any || found;
    }
  }

  function FilteredField(k: string, v: Json, hosts: set<string>, canon: string -> string): Json {
    if IsHostTest(k, v) then Arr(Retained(v.items, hosts, canon)) else Filtered(v, hosts, canon)
  }

  /** One field: a host list is retained first and then walked like any other child, which leaves it alone. */
  method FilterField(ghost whole: Json, k: string, v: Json, hosts: set<string>, canon: string -> string)
    returns (child: Json, any: bool)
    requires v < whole
    ensures child == FilteredField(k, v, hosts, canon) && any == RetainsUnder(k, v, hosts, canon)
    decreases whole, 1
  {
    if !IsHostTest(k, v) {
      child, any := FilterHostsRecursive(v, hosts, canon);
      return;
    }
    var kept;
    kept, any := RetainHosts(v.items, hosts, canon);
    RetainedNames(v.items, hosts, canon);
    RetainedStringsStay(v.items, hosts, canon);
    var walked, found := FilterItems(v, kept, hosts, canon);
    child, any := Arr(walked), any || found;
  }

  method FilterFields(v: Json, hosts: set<string>, canon: string -> string)
    returns (fields: map<string, Json>, any: bool)
    requires v.Obj?
    ensures fields == map k | k in v.fields :: FilteredField(k, v.fields[k], hosts, canon)
    ensures any <==> exists k :: k in v.fields && RetainsUnder(k, v.fields[k], hosts, canon)
    decreases v, 2
  {
    var m := v.fields;
    fields, any := m, false;
    var left := m.Keys;
    while left != {}
      invariant left <= m.Keys == fields.Keys
      invariant forall k | k in m :: fields[k] == if k in left then m[k] else FilteredField(k, m[k], hosts, canon)
      invariant any <==> exists k :: k in m && k !in left && RetainsUnder(k, m[k], hosts, canon)
      decreases left
    {
      var k :| k in left;
      var child, found := FilterField(v, k, m[k], hosts, canon);
      fields, any, left := fields[k := child], any || found, left - {k};
    }
  }

  function HostsUpTo(items: seq<Json>, n: nat, canon: string -> string): set<string>
    requires n <= |items|
  {
    set i, h | 0 <= i < n && h in CollectHosts(items[i], canon) :: h
  }

  lemma HostsOfItems(items: seq<Json>, canon: string -> string)
    ensures CollectHosts(Arr(items), canon) == HostsUpTo(items, |items|, canon)
  {
    forall h ensures h in CollectHosts(Arr(items), canon) <==> h in HostsUpTo(items, |items|, canon) {
      if h in HostsUpTo(items, |items|, canon) {
        var i :| 0 <= i < |items| && h in CollectHosts(items[i], canon);
      }
    }
  }

  lemma OneMoreItem(items: seq<Json>, i: nat, canon: string -> string)
    requires i < |items|
    ensures HostsUpTo(items, i + 1, canon) == HostsUpTo(items, i, canon) + CollectHosts(items[i], canon)
  {
    hide CollectHosts;
  }

  function HostsAt(m: map<string, Json>, keys: set<string>, canon: string -> string): set<string> {
    set k, h | k in m && k in keys && h in CollectHosts(m[k], canon) :: h
  }

  lemma HostsOfFields(m: map<string, Json>, canon: string -> string)
    ensures CollectHosts(Obj(m), canon) ==
            (if "host" in m && m["host"].Arr? then HostStrings(m["host"].items, canon) else {})
            + HostsAt(m, m.Keys, canon)
  {
    forall h | h in CollectHosts(Obj(m), canon) && h !in HostsAt(m, m.Keys, canon)
      ensures "host" in m && m["host"].Arr? && h in HostStrings(m["host"].items, canon)
    {
      assert forall k | k in m :: h !in CollectHosts(m[k], canon);
    }
    forall h | h in HostsAt(m, m.Keys, canon) ensures h in CollectHosts(Obj(m), canon) {
      var k :| k in m && h in CollectHosts(m[k], canon);
    }
  }

  /** `collect_hosts`, into the hosts collected so far. */
  method CollectHostsInto(v: Json, soFar: set<string>, canon: string -> string) returns (hosts: set<string>)
    ensures hosts == soFar + CollectHosts(v, canon)
    decreases v, 1
  {
    hosts := soFar;
    match v {
      case Obj(m) =>
        HostsOfFields(m, canon);
        if "host" in m && m["host"].Arr? {
          hosts := hosts + HostStrings(m["host"].items, canon);
        }
        hosts := CollectFieldHosts(v, hosts, canon);
      case Arr(items) =>
        hosts := CollectItemHosts(v, hosts, canon);
        HostsOfItems(items, canon);
      case _ =>
    }
  }

  method CollectFieldHosts(v: Json, soFar: set<string>, canon: string -> string) returns (hosts: set<string>)
    requires v.Obj?
    ensures hosts == soFar + HostsAt(v.fields, v.fields.Keys, canon)
    decreases v, 0
  {
    var m := v.fields;
    hosts := soFar;
    var left := m.Keys;
    while left != {}
      invariant left <= m.Keys
      invariant hosts == soFar + HostsAt(m, m.Keys - left, canon)
      decreases left
    {
      var k :| k in left;
      hosts := CollectHostsInto(m[k], hosts, canon);
      assert HostsAt(m, m.Keys - (left - {k}), canon) == HostsAt(m, m.Keys - left, canon) + CollectHosts(m[k], canon);
      left := left - {k};
    }
    assert m.Keys - left == m.Keys;
  }

  method CollectItemHosts(v: Json, soFar: set<string>, canon: string -> string) returns (hosts: set<string>)
    requires v.Arr?
    ensures hosts == soFar + HostsUpTo(v.items, |v.items|, canon)
    decreases v, 0
  {
    hide CollectHosts;
    hosts := soFar;
    assert HostsUpTo(v.items, 0, canon) == {};
    hide HostsUpTo;
    for i := 0 to |v.items|
      invariant hosts == soFar + HostsUpTo(v.items, i, canon)
    {
      hosts := CollectHostsInto(v.items[i], hosts, canon);
      OneMoreItem(v.items, i, canon);
    }
  }

  /** `namespace_config_ids`. */
  method NamespaceConfigIds(v: Json, prefix: string) returns (result: Json)
    ensures result == Namespaced(v, prefix)
    decreases v
  {
    match v {
      case Obj(m) =>
        var fields := m;
        var left := m.Keys;
        while left != {}
          invariant left <= m.Keys == fields.Keys
          invariant forall k | k in m :: fields[k] == if k in left then m[k] else NamespacedField(k, m[k], prefix)
          decreases left
        {
          var k :| k in left;
          if k == "@id" && m[k].Str? {
            fields := fields[k := Str(prefix + m[k].s)];
          } else {
            var child := NamespaceConfigIds(m[k], prefix);
            fields := fields[k := child];
          }
          left := left - {k};
        }
        result := Obj(fields);
      case Arr(items) =>
        var renamed: seq<Json> := [];
        for i := 0 to |items|
          invariant |renamed| == i && forall j | 0 <= j < i :: renamed[j] == Namespaced(items[j], prefix)
        {
          var item := NamespaceConfigIds(items[i], prefix);
          renamed := renamed + [item];
        }
        result := Arr(renamed);
      case _ =>
        result := v;
    }
  }

  function NamespacedField(k: string, v: Json, prefix: string): Json {
    if k == "@id" && v.Str? then Str(prefix + v.s) else Namespaced(v, prefix)
  }
}
