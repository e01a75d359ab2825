/** The bounded Caddy log: what the in-memory store keeps, and that the database keeps at least that. */
module LogRetention {
  import opened Wrappers

  datatype Stream = Stream(id: string, channel: string, domainKey: Option<string>)

  datatype Entry = Entry(sequence: nat, stream: Stream, message: string)

  datatype Limits = Limits(total: nat, perKey: nat)

  const DEFAULT_LIMITS := Limits(5_000, 1_000)

  /** `stream_key`: different streams may share a key. */
  function StreamKey(s: Stream): string {
    s.id + "|" + s.channel + "|" + if s.domainKey.Some? then s.domainKey.value else ""
  }

  function KeyOf(e: Entry): string {
    StreamKey(e.stream)
  }

  function Count(es: seq<Entry>, key: string): nat {
    if es == [] then 0 else (if KeyOf(es[0]) == key then 1 else 0) + Count(es[1..], key)
  }

  ghost predicate Within(es: seq<Entry>, limits: Limits) {
    |es| <= limits.total && forall key :: Count(es, key) <= limits.perKey
  }

  /** The longest suffix within the limits. */
  ghost function Kept(es: seq<Entry>, limits: Limits): seq<Entry> {
    if Within(es, limits) || es == [] then es else Kept(es[1..], limits)
  }

  function At(counts: map<string, nat>, key: string): nat {
    if key in counts then counts[key] else 0
  }

  datatype StreamStatus = Empty | Removed | Active | Stale

  function Matching(es: seq<Entry>, s: Stream): seq<Entry> {
    if es == [] then []
    else
      var before := Matching(es[..|es| - 1], s);
      if es[|es| - 1].stream == s then before + [es[|es| - 1]] else before
  }

  function LastOf(es: seq<Entry>, n: nat): seq<Entry> {
    if |es| <= n then es else es[|es| - n..]
  }

  function StatusOf(none: bool, active: bool): StreamStatus {
    if none then (if active then Empty else Removed) else if active then StreamStatus.Active else Stale
  }

  class CaddyLogStore {
    const limits: Limits
    var nextSequence: nat
    var entries: seq<Entry>
    var perStream: map<string, nat>
    /** Everything ever appended. */
    ghost var history: seq<Entry>

    constructor (limits: Limits)
      ensures Valid() && this.limits == limits && history == []
    {
      this.limits := limits;
      nextSequence, entries, perStream, history := 0, [], map[], [];
      new;
      assert forall key :: Count([], key) == 0;
    }

    /** The log is the longest suffix of its history within the limits, and the counts are true. */
    ghost predicate Valid()
      reads this
    {
      && entries == Kept(history, limits)
      && nextSequence == |history|
      && (forall i | 0 <= i < |history| :: history[i].sequence == i + 1)
      && forall key :: At(perStream, key) == Count(entries, key)
    }

    method Append(stream: Stream, message: string) returns (entry: Entry)
      requires Valid()
      modifies this
      ensures Valid() && entry == Entry(|history|, stream, message) && history == old(history) + [entry]
    {
      hide Kept;
      hide Count;
      KeptIsWithin(history, limits);
      nextSequence := nextSequence + 1;
      entry := Entry(nextSequence, stream, message);
      var key := StreamKey(stream);
      KeptGrows(history, entry, limits);
      CountConcat(entries, [entry]);
      CountOne(entry);
      entries := entries + [entry];
      perStream := perStream[key := At(perStream, key) + 1];
      history := history + [entry];
      while |entries| > limits.total || At(perStream, key) > limits.perKey
        invariant history == old(history) + [entry] && nextSequence == |history|
        invariant Kept(entries, limits) == Kept(history, limits)
        invariant forall k :: At(perStream, k) == Count(entries, k)
        invariant forall k | k != key :: Count(entries, k) <= limits.perKey
        decreases |entries|
      {
        if entries == [] {
          break;
        }
        var removedKey := KeyOf(entries[0]);
        CountFirst(entries);
        EvictingKeeps(entries, key, limits);
        // The count never saturates: the removed entry has been counted.
        assert At(perStream, removedKey) > 0;
        entries := entries[1..];
        if removedKey in perStream {
          perStream := perStream[removedKey := if perStream[removedKey] == 0 then 0 else perStream[removedKey] - 1];
        }
      }
      CountNone();
      WithinIsKept(entries, limits);
    }

    method Query(stream: Stream, limit: nat, active: bool) returns (status: StreamStatus, found: seq<Entry>)
      ensures found == LastOf(Matching(entries, stream), limit)
      ensures status == StatusOf(forall e | e in entries :: e.stream != stream, active)
      ensures AnswersQuery(entries, stream, limit, found)
    {
      hide AnswersQuery;
      FoundIsTheEndOfTheStream(entries, stream, limit);
      found := [];
      for i := 0 to |entries|
        invariant found == Matching(entries[..i], stream)
        invariant found == [] <==> forall e | e in entries[..i] :: e.stream != stream
      {
        assert entries[..i + 1] == entries[..i] + [entries[i]];
        if entries[i].stream == stream {
          found := found + [entries[i]];
        }
      }
      assert entries[..|entries|] == entries;
      status := StatusOf(found == [], active);
      if |found| > limit {
        found := found[|found| - limit..];
      }
    }
  }

  // ---------------------------------------------------------------- what a query finds

  /** `same_stream`: registration, channel and domain agree. */
  predicate SameStream(e: Entry, s: Stream) {
    e.stream.id == s.id && e.stream.channel == s.channel && e.stream.domainKey == s.domainKey
  }

  /** The places of a stream's entries, in order. */
  ghost function Places(es: seq<Entry>, s: Stream): seq<nat> {
    if es == [] then []
    else Places(es[..|es| - 1], s) + (if SameStream(es[|es| - 1], s) then [|es| - 1] else [])
  }

  ghost predicate Increasing(places: seq<nat>) {
    forall i, j | 0 <= i < j < |places| :: places[i] < places[j]
  }

  /** Position by position, `found` is what lies at these places of the log. */
  ghost predicate FoundAt(es: seq<Entry>, places: seq<nat>, found: seq<Entry>) {
    |places| == |found| && forall i | 0 <= i < |places| :: places[i] < |es| && found[i] == es[places[i]]
  }

  lemma {:induction false} PlacesExactly(es: seq<Entry>, s: Stream, k: nat)
    ensures k in Places(es, s) <==> k < |es| && SameStream(es[k], s)
  {
    if es != [] {
      var n := |es| - 1;
      PlacesExactly(es[..n], s, k);
      assert k < n ==> es[..n][k] == es[k];
    }
  }

  lemma {:induction false} PlacesIncrease(es: seq<Entry>, s: Stream)
    ensures Increasing(Places(es, s)) && forall i | 0 <= i < |Places(es, s)| :: Places(es, s)[i] < |es|
  {
    if es != [] {
      PlacesIncrease(es[..|es| - 1], s);
    }
  }

  lemma {:induction false} MatchingIsFound(es: seq<Entry>, s: Stream)
    ensures FoundAt(es, Places(es, s), Matching(es, s))
  {
    if es != [] {
      var n := |es| - 1;
      MatchingIsFound(es[..n], s);
      var before := Places(es[..n], s);
      assert forall i | 0 <= i < |before| :: es[..n][before[i]] == es[before[i]];
    }
  }

  /** The answer: what lies at the last places of the stream, so many and no more. */
  ghost predicate AnswersQuery(es: seq<Entry>, s: Stream, limit: nat, found: seq<Entry>) {
    exists places :: FoundAt(es, places, found) && LastPlaces(es, s, limit, places)
  }

  /**
   In the order of the log, each once, at most as many as asked for; if a place of the stream is
   missing there are exactly so many, and all of them are later.
   */
  ghost predicate LastPlaces(es: seq<Entry>, s: Stream, limit: nat, places: seq<nat>) {
    && Increasing(places) && |places| <= limit
    && (forall i | 0 <= i < |places| :: places[i] < |es| && SameStream(es[places[i]], s))
    && forall k: nat | k < |es| && SameStream(es[k], s) && k !in places ::
         |places| == limit && forall i | 0 <= i < |places| :: k < places[i]
  }

  lemma LastOfThePlaces(es: seq<Entry>, s: Stream, limit: nat, cut: nat)
    requires cut == if |Places(es, s)| <= limit then 0 else |Places(es, s)| - limit
    ensures LastPlaces(es, s, limit, Places(es, s)[cut..])
  {
    hide Places;
    hide SameStream;
    var all := Places(es, s);
    var places := all[cut..];
    PlacesIncrease(es, s);
    forall i | 0 <= i < |places| ensures places[i] < |es| && SameStream(es[places[i]], s) {
      assert places[i] == all[cut + i] && all[cut + i] in all;
      PlacesExactly(es, s, places[i]);
    }
    forall k: nat | k < |es| && SameStream(es[k], s) && k !in places
      ensures |places| == limit && forall i | 0 <= i < |places| :: k < places[i]
    {
      PlacesExactly(es, s, k);
      assert all == all[..cut] + places;
      var j :| 0 <= j < cut && all[..cut][j] == k;
      assert all[j] == k;
    }
  }

  lemma FoundIsTheEndOfTheStream(es: seq<Entry>, s: Stream, limit: nat)
    ensures AnswersQuery(es, s, limit, LastOf(Matching(es, s), limit))
  {
    hide Places;
    hide Matching;
    hide LastPlaces;
    MatchingIsFound(es, s);
    var all := Places(es, s);
    var cut: nat := if |all| <= limit then 0 else |all| - limit;
    LastOfThePlaces(es, s, limit, cut);
    assert LastOf(Matching(es, s), limit) == Matching(es, s)[cut..];
    assert FoundAt(es, all[cut..], Matching(es, s)[cut..]);
  }

  /** The status of a stream: whether anything of it is retained, and whether its source is still there. */
  lemma StatusTells(es: seq<Entry>, s: Stream, active: bool)
    ensures var status := StatusOf(forall e | e in es :: e.stream != s, active);
            && (status.Empty? || status.Removed? <==> !exists e :: e in es && SameStream(e, s))
            && (status.Empty? || status.Active? <==> active)
  {
    assert forall e | e in es :: e.stream == s <==> SameStream(e, s);
  }

  // ---------------------------------------------------------------- the longest suffix

  ghost predicate IsSuffix(short: seq<Entry>, long: seq<Entry>) {
    |short| <= |long| && long[|long| - |short|..] == short
  }

  lemma {:induction false} CountConcat(a: seq<Entry>, b: seq<Entry>)
    ensures forall key :: Count(a + b, key) == Count(a, key) + Count(b, key)
  {
    if a == [] {
      assert a + b == b;
    } else {
      CountConcat(a[1..], b);
      assert (a + b)[1..] == a[1..] + b;
    }
  }

  lemma CountOne(e: Entry)
    ensures forall key :: Count([e], key) == if key == KeyOf(e) then 1 else 0
  {
    assert [e][1..] == [];
  }

  lemma CountFirst(es: seq<Entry>)
    requires es != []
    ensures forall key :: Count(es, key) == (if key == KeyOf(es[0]) then 1 else 0) + Count(es[1..], key)
  {}

  lemma CountNone()
    ensures forall key :: Count([], key) == 0
  {}

  lemma EvictingKeeps(es: seq<Entry>, key: string, limits: Limits)
    requires es != [] && (|es| > limits.total || Count(es, key) > limits.perKey)
    ensures Kept(es, limits) == Kept(es[1..], limits)
  {}

  lemma WithinIsKept(es: seq<Entry>, limits: Limits)
    requires Within(es, limits)
    ensures Kept(es, limits) == es
  {}

  lemma {:induction false} KeptIsWithin(es: seq<Entry>, limits: Limits)
    ensures Within(Kept(es, limits), limits) && IsSuffix(Kept(es, limits), es)
  {
    if !Within(es, limits) {
      assert es != [] by { assert forall key :: Count([], key) == 0; }
      KeptIsWithin(es[1..], limits);
    }
  }

  /** What is kept is within the limits, and no longer suffix is. */
  lemma {:induction false} KeptIsLongest(es: seq<Entry>, limits: Limits, other: seq<Entry>)
    requires IsSuffix(other, es) && Within(other, limits)
    ensures IsSuffix(other, Kept(es, limits))
  {
    if !Within(es, limits) {
      assert es != [] by { assert forall key :: Count([], key) == 0; }
      assert other != es;
      assert es[1..][|es[1..]| - |other|..] == other;
      KeptIsLongest(es[1..], limits, other);
    }
  }

  /** Trimming after each append is trimming the whole history. */
  lemma {:induction false} KeptGrows(history: seq<Entry>, e: Entry, limits: Limits)
    ensures Kept(Kept(history, limits) + [e], limits) == Kept(history + [e], limits)
  {
    if !Within(history, limits) {
      assert history != [] by { assert forall key :: Count([], key) == 0; }
      if Within(history + [e], limits) {
        CountConcat(history, [e]);
        assert false;
      }
      assert (history + [e])[1..] == history[1..] + [e];
      KeptGrows(history[1..], e, limits);
    }
  }

  // ---------------------------------------------------------------- the database

  /** The first delete of `append_log`: of the rows with this key, only the newest stay. */
  function KeepNewestOf(rows: seq<Entry>, key: string, n: nat): seq<Entry> {
    if rows == [] then []
    else if KeyOf(rows[0]) == key && Count(rows, key) > n then KeepNewestOf(rows[1..], key, n)
    else [rows[0]] + KeepNewestOf(rows[1..], key, n)
  }

  /** `append_log`: insert, delete by key, delete by total. */
  function AppendedRow(rows: seq<Entry>, e: Entry, limits: Limits): seq<Entry> {
    LastOf(KeepNewestOf(rows + [e], KeyOf(e), limits.perKey), limits.total)
  }

  function Rows(history: seq<Entry>, limits: Limits): seq<Entry> {
    if history == [] then []
    else AppendedRow(Rows(history[..|history| - 1], limits), history[|history| - 1], limits)
  }

  lemma {:induction false} NewestOfFew(rows: seq<Entry>, key: string, n: nat)
    requires Count(rows, key) <= n
    ensures KeepNewestOf(rows, key, n) == rows
  {
    if rows != [] {
      NewestOfFew(rows[1..], key, n);
    }
  }

  lemma {:induction false} NewestKeepsTheEnd(a: seq<Entry>, b: seq<Entry>, key: string, n: nat)
    requires Count(b, key) <= n
    ensures IsSuffix(b, KeepNewestOf(a + b, key, n))
  {
    if a == [] {
      assert a + b == b;
      NewestOfFew(b, key, n);
    } else {
      assert (a + b)[1..] == a[1..] + b;
      NewestKeepsTheEnd(a[1..], b, key, n);
    }
  }

  lemma AppendingKeepsTheEnd(kept: seq<Entry>, rows: seq<Entry>, e: Entry, limits: Limits)
    requires IsSuffix(kept, rows)
    ensures IsSuffix(Kept(kept + [e], limits), AppendedRow(rows, e, limits))
  {
    hide Kept;
    hide Count;
    hide KeepNewestOf;
    var after, all := Kept(kept + [e], limits), rows + [e];
    KeptIsWithin(kept + [e], limits);
    assert all[|all| - (|kept| + 1)..] == kept + [e];
    assert all[|all| - |after|..] == after;
    assert all[..|all| - |after|] + after == all;
    NewestKeepsTheEnd(all[..|all| - |after|], after, KeyOf(e), limits.perKey);
  }

  /**
   With equal limits, whatever the history, what the in-memory log keeps is the end of what the
   database keeps: every entry of the one is an entry of the other, in the same order.
   */
  lemma {:induction false} DatabaseKeepsAtLeastThat(history: seq<Entry>, limits: Limits)
    ensures IsSuffix(Kept(history, limits), Rows(history, limits))
  {
    if history != [] {
      var before, e := history[..|history| - 1], history[|history| - 1];
      DatabaseKeepsAtLeastThat(before, limits);
      AppendingKeepsTheEnd(Kept(before, limits), Rows(before, limits), e, limits);
      KeptGrows(before, e, limits);
      assert before + [e] == history;
    }
  }

  /** The first delete takes from its own key alone, and of that no more than the limit asks for. */
  lemma {:induction false} NewestCounts(rows: seq<Entry>, key: string, n: nat, other: string)
    ensures Count(KeepNewestOf(rows, key, n), other) ==
            if other == key && Count(rows, key) > n then n else Count(rows, other)
  {
    if rows != [] {
      NewestCounts(rows[1..], key, n, other);
      if Count(rows, key) <= n {
        NewestOfFew(rows, key, n);
      }
    }
  }

  /** The database keeps its own limits too: five thousand rows, a thousand of each key. */
  lemma {:induction false} RowsAreWithin(history: seq<Entry>, limits: Limits)
    ensures Within(Rows(history, limits), limits)
    ensures limits == DEFAULT_LIMITS ==>
              |Rows(history, limits)| <= 5_000 && forall key :: Count(Rows(history, limits), key) <= 1_000
  {
    if history != [] {
      var before, e := history[..|history| - 1], history[|history| - 1];
      RowsAreWithin(before, limits);
      var all := Rows(before, limits) + [e];
      var newest := KeepNewestOf(all, KeyOf(e), limits.perKey);
      forall key ensures Count(newest, key) <= limits.perKey {
        NewestCounts(all, KeyOf(e), limits.perKey, key);
        CountConcat(Rows(before, limits), [e]);
        CountOne(e);
      }
      var last := LastOf(newest, limits.total);
      CountConcat(newest[..|newest| - |last|], last);
      assert newest[..|newest| - |last|] + last == newest;
    }
  }
}
