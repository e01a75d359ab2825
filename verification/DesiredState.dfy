/**
 The desired activation kept in SQLite, per working directory: what is stored, when storing
 fails, what comes back.
 */
module DesiredState {
  import opened Wrappers
  import opened StringOrder
  import opened Registrations

  /** A row of `entrypoints` with the rows of `domains` that reference it. */
  datatype Row = Row(registrationId: string, caddyfilePath: string, enabled: bool, domains: map<string, bool>)

  /** The tables, keyed by working directory. `registration_id` is unique across rows. */
  type Table = map<string, Row>

  function DomainRows(domains: seq<Domain>): Option<map<string, bool>> {
    if domains == [] then Some(map[])
    else
      var n := |domains| - 1;
      var before := DomainRows(domains[..n]);
      if before.None? || domains[n].canonical in before.value then None
      else Some(before.value[domains[n].canonical := domains[n].activation.IsEnabled()])
  }

  predicate IdTakenElsewhere(t: Table, id: string, directory: string) {
    exists d :: d in t && d != directory && t[d].registrationId == id
  }

  /** Upsert, delete the old domains, insert the new ones: fails on either uniqueness constraint. */
  function Upserted(t: Table, r: Registration): Option<Table> {
    if IdTakenElsewhere(t, r.id, r.workingDirectory) || DomainRows(r.domains).None? then None
    else Some(t[r.workingDirectory := Row(r.id, r.configPath, r.activation.IsEnabled(), DomainRows(r.domains).value)])
  }

  /** `persist_desired_state`: the whole batch in one transaction, or nothing. */
  function Persisted(t: Table, batch: seq<Registration>): Option<Table> {
    if batch == [] then Some(t)
    else
      var before := Persisted(t, batch[..|batch| - 1]);
      if before.None? then None else Upserted(before.value, batch[|batch| - 1])
  }

  function RestoredDomain(d: Domain, stored: map<string, bool>): Domain {
    if d.canonical in stored then d.(activation := ActivationState.FromEnabled(stored[d.canonical])) else d
  }

  /** `restore_desired_state`. */
  function RestoredFrom(t: Table, r: Registration): Registration {
    if r.workingDirectory !in t then r
    else
      var row := t[r.workingDirectory];
      r.(activation := ActivationState.FromEnabled(row.enabled),
         domains := seq(|r.domains|, i requires 0 <= i < |r.domains| => RestoredDomain(r.domains[i], row.domains)))
  }

  class DesiredStateStore {
    var rows: Table

    constructor ()
      ensures rows == map[]
    {
      rows := map[];
    }

    method InsertDomains(domains: seq<Domain>) returns (inserted: Option<map<string, bool>>)
      ensures inserted == DomainRows(domains)
    {
      var done: map<string, bool> := map[];
      for i := 0 to |domains|
        invariant DomainRows(domains[..i]) == Some(done)
      {
        assert domains[..i + 1][..i] == domains[..i];
        if domains[i].canonical in done {
          FailedPrefix(domains, i + 1);
          return None;
        }
        done := done[domains[i].canonical := domains[i].activation.IsEnabled()];
      }
      assert domains[..|domains|] == domains;
      return Some(done);
    }

    method PersistDesiredState(batch: seq<Registration>) returns (ok: bool)
      modifies this
      ensures ok == Persisted(old(rows), batch).Some?
      ensures rows == if ok then Persisted(old(rows), batch).value else old(rows)
    {
      var transaction := rows;
      for i := 0 to |batch|
        invariant Persisted(rows, batch[..i]) == Some(transaction)
        invariant rows == old(rows)
      {
        var r := batch[i];
        assert batch[..i + 1][..i] == batch[..i];
        var domains := InsertDomains(r.domains);
        if IdTakenElsewhere(transaction, r.id, r.workingDirectory) || domains.None? {
          FailedBatchPrefix(rows, batch, i + 1);
          return false;
        }
        transaction := transaction[r.workingDirectory :=
                                   Row(r.id, r.configPath, r.activation.IsEnabled(), domains.value)];
      }
      assert batch[..|batch|] == batch;
      rows := transaction;
      return true;
    }

    method RestoreDesiredState(r: Registration) returns (restored: Registration)
      ensures restored == RestoredFrom(rows, r)
    {
      restored := r;
      if r.workingDirectory in rows {
        var row := rows[r.workingDirectory];
        var domains := r.domains;
        for i := 0 to |domains|
          invariant |domains| == |r.domains|
          invariant forall j | 0 <= j < |domains| ::
              domains[j] == if j < i then RestoredDomain(r.domains[j], row.domains) else r.domains[j]
        {
          domains := domains[i := RestoredDomain(domains[i], row.domains)];
        }
        restored := r.(activation := ActivationState.FromEnabled(row.enabled), domains := domains);
      }
    }
  }

  lemma {:induction false} FailedPrefix(domains: seq<Domain>, n: nat)
    requires n <= |domains| && DomainRows(domains[..n]).None?
    ensures DomainRows(domains).None?
    decreases |domains|
  {
    if n < |domains| {
      assert domains[..|domains| - 1][..n] == domains[..n];
      FailedPrefix(domains[..|domains| - 1], n);
    } else {
      assert domains[..n] == domains;
    }
  }

  lemma {:induction false} FailedBatchPrefix(t: Table, batch: seq<Registration>, n: nat)
    requires n <= |batch| && Persisted(t, batch[..n]).None?
    ensures Persisted(t, batch).None?
    decreases |batch|
  {
    if n < |batch| {
      assert batch[..|batch| - 1][..n] == batch[..n];
      FailedBatchPrefix(t, batch[..|batch| - 1], n);
    } else {
      assert batch[..n] == batch;
    }
  }

  // ---------------------------------------------------------------- when storing fails

  ghost predicate DistinctDomains(domains: seq<Domain>) {
    forall i, j | 0 <= i < j < |domains| :: domains[i].canonical != domains[j].canonical
  }

  /** The rows hold exactly the listed domains, each with whether it is enabled. */
  ghost predicate RowsAre(rows: map<string, bool>, domains: seq<Domain>) {
    && (forall i | 0 <= i < |domains| ::
          domains[i].canonical in rows && rows[domains[i].canonical] == domains[i].activation.IsEnabled())
    && (forall c | c in rows :: exists i :: 0 <= i < |domains| && domains[i].canonical == c)
  }

  lemma OneMoreRow(rows: map<string, bool>, domains: seq<Domain>, n: nat)
    requires n + 1 == |domains| && RowsAre(rows, domains[..n]) && domains[n].canonical !in rows
    ensures RowsAre(rows[domains[n].canonical := domains[n].activation.IsEnabled()], domains)
  {
    assert forall i | 0 <= i < n :: domains[..n][i] == domains[i];
    var after := rows[domains[n].canonical := domains[n].activation.IsEnabled()];
    forall c | c in after ensures exists i :: 0 <= i < |domains| && domains[i].canonical == c {
      if c == domains[n].canonical {
        assert domains[n].canonical == c;
      } else {
        var i :| 0 <= i < n && domains[..n][i].canonical == c;
        assert domains[i].canonical == c;
      }
    }
  }

  lemma OneMoreDistinct(rows: map<string, bool>, domains: seq<Domain>, n: nat)
    requires n + 1 == |domains| && RowsAre(rows, domains[..n])
    ensures DistinctDomains(domains) <==> DistinctDomains(domains[..n]) && domains[n].canonical !in rows
  {
    assert forall i | 0 <= i < n :: domains[..n][i] == domains[i];
  }

  lemma {:induction false} DomainRowsExactly(domains: seq<Domain>)
    ensures DomainRows(domains).Some? <==> DistinctDomains(domains)
    ensures DomainRows(domains).Some? ==> RowsAre(DomainRows(domains).value, domains)
  {
    if domains != [] {
      var n := |domains| - 1;
      DomainRowsExactly(domains[..n]);
      assert DistinctDomains(domains) ==> DistinctDomains(domains[..n]);
      hide DistinctDomains;
      if DomainRows(domains[..n]).Some? {
        OneMoreDistinct(DomainRows(domains[..n]).value, domains, n);
        if DomainRows(domains).Some? {
          OneMoreRow(DomainRows(domains[..n]).value, domains, n);
        }
      }
    }
  }

  ghost predicate DistinctIds(batch: seq<Registration>) {
    forall i, j | 0 <= i < j < |batch| :: batch[i].id != batch[j].id
  }

  /** Someone before place `i` of the batch has overwritten the row of directory `d`. */
  ghost predicate Overwritten(batch: seq<Registration>, i: nat, d: string) {
    exists j :: 0 <= j < i && j < |batch| && batch[j].workingDirectory == d
  }

  /** Place `i` can be stored: its domains are distinct and no other directory still holds its id. */
  ghost predicate Storable(t: Table, batch: seq<Registration>, i: nat)
    requires i < |batch|
  {
    && DistinctDomains(batch[i].domains)
    && forall d | d in t && d != batch[i].workingDirectory && t[d].registrationId == batch[i].id ::
         Overwritten(batch, i, d)
  }

  /** The row that the last registration of directory `d` in the batch leaves. */
  ghost predicate LastOf(batch: seq<Registration>, i: nat, d: string) {
    i < |batch| && batch[i].workingDirectory == d && !exists j :: i < j < |batch| && batch[j].workingDirectory == d
  }

  ghost predicate RowOf(row: Row, r: Registration) {
    && row.registrationId == r.id && row.caddyfilePath == r.configPath && row.enabled == r.activation.IsEnabled()
    && DomainRows(r.domains) == Some(row.domains)
  }

  ghost predicate PersistedAs(t: Table, batch: seq<Registration>, after: Table) {
    && (forall d :: d in after <==> d in t || exists i :: 0 <= i < |batch| && batch[i].workingDirectory == d)
    && (forall i: nat, d | LastOf(batch, i, d) :: d in after && RowOf(after[d], batch[i]))
    && (forall d | d in t && !Overwritten(batch, |batch|, d) :: d in after && after[d] == t[d])
  }

  lemma OverwrittenRowsHaveOtherIds(t: Table, batch: seq<Registration>, n: nat, before: Table, d: string)
    requires n + 1 == |batch| && DistinctIds(batch) && PersistedAs(t, batch[..n], before)
    ensures Overwritten(batch[..n], n, d) ==> d in before && before[d].registrationId != batch[n].id
  {
    if Overwritten(batch[..n], n, d) {
      var i := LastPlace(batch[..n], d);
      assert batch[..n][i] == batch[i];
    }
  }

  /** An id is taken elsewhere exactly when a row of another directory holds it that the batch has not overwritten. */
  lemma TakenExactly(t: Table, batch: seq<Registration>, n: nat, before: Table, d: string)
    requires n + 1 == |batch| && DistinctIds(batch) && PersistedAs(t, batch[..n], before)
    ensures Overwritten(batch[..n], n, d) <==> Overwritten(batch, n, d)
    ensures d in before && before[d].registrationId == batch[n].id <==>
            d in t && t[d].registrationId == batch[n].id && !Overwritten(batch, n, d)
  {
    assert forall j | 0 <= j < n :: batch[..n][j] == batch[j];
    OverwrittenRowsHaveOtherIds(t, batch, n, before, d);
  }

  lemma PersistStep(t: Table, batch: seq<Registration>, n: nat, before: Table)
    requires n + 1 == |batch| && DistinctIds(batch)
    requires PersistedAs(t, batch[..n], before)
    ensures Upserted(before, batch[n]).Some? <==> Storable(t, batch, n)
  {
    hide PersistedAs;
    hide Overwritten;
    hide DistinctDomains;
    DomainRowsExactly(batch[n].domains);
    forall d { TakenExactly(t, batch, n, before, d); }
  }

  lemma {:induction false} LastPlace(batch: seq<Registration>, d: string) returns (i: nat)
    requires Overwritten(batch, |batch|, d)
    ensures LastOf(batch, i, d)
  {
    var n := |batch| - 1;
    if batch[n].workingDirectory == d {
      i := n;
    } else {
      var j :| 0 <= j < |batch| && batch[j].workingDirectory == d;
      assert batch[..n][j].workingDirectory == d;
      i := LastPlace(batch[..n], d);
      forall k | i < k < |batch| ensures batch[k].workingDirectory != d {
        if k < n { assert batch[..n][k] == batch[k]; }
      }
    }
  }

  lemma PersistedStep(t: Table, batch: seq<Registration>, n: nat, before: Table)
    requires n + 1 == |batch| && PersistedAs(t, batch[..n], before) && Upserted(before, batch[n]).Some?
    ensures PersistedAs(t, batch, Upserted(before, batch[n]).value)
  {
    var after, earlier := Upserted(before, batch[n]).value, batch[..n];
    assert forall i | 0 <= i < n :: earlier[i] == batch[i];
    forall i: nat, d | LastOf(batch, i, d) ensures d in after && RowOf(after[d], batch[i]) {
      if i < n {
        assert LastOf(earlier, i, d);
      }
    }
    forall d | d in t && !Overwritten(batch, |batch|, d) ensures d in after && after[d] == t[d] {
      assert batch[n].workingDirectory != d;
      assert !Overwritten(earlier, n, d);
    }
  }

  lemma NothingPersisted(t: Table)
    ensures PersistedAs(t, [], t)
  {
    assert forall d :: !Overwritten([], 0, d);
  }

  /**
   Storing a batch of distinct ids succeeds exactly when every registration lists distinct domains
   and its id sits in no other directory's row that the batch has not overwritten by then. Then
   each directory of the batch holds the state of its last registration, and no other row changes.
   */
  lemma {:induction false} PersistExactly(t: Table, batch: seq<Registration>)
    requires DistinctIds(batch)
    ensures Persisted(t, batch).Some? <==> forall i | 0 <= i < |batch| :: Storable(t, batch, i)
    ensures Persisted(t, batch).Some? ==> PersistedAs(t, batch, Persisted(t, batch).value)
  {
    hide PersistedAs;
    hide Storable;
    hide Upserted;
    if batch == [] {
      NothingPersisted(t);
    } else {
      var n := |batch| - 1;
      PersistExactly(t, batch[..n]);
      StorableInPrefix(t, batch, n);
      if Persisted(t, batch[..n]).Some? {
        PersistStep(t, batch, n, Persisted(t, batch[..n]).value);
        if Persisted(t, batch).Some? {
          PersistedStep(t, batch, n, Persisted(t, batch[..n]).value);
        }
      }
    }
  }

  lemma StorableInPrefix(t: Table, batch: seq<Registration>, n: nat)
    requires n <= |batch|
    ensures forall i | 0 <= i < n :: Storable(t, batch[..n], i) <==> Storable(t, batch, i)
  {
    forall i, d | 0 <= i < n ensures Overwritten(batch[..n], i, d) <==> Overwritten(batch, i, d) {
      assert forall j | 0 <= j < n :: batch[..n][j] == batch[j];
    }
  }

  // ---------------------------------------------------------------- the registry in the table

  /** The registration that speaks for its working directory: the greatest id there. */
  ghost predicate SpeaksForItsDirectory(regs: Registry, k: string) {
    && k in regs
    && forall other | other in regs && regs[other].workingDirectory == regs[k].workingDirectory :: !Less(k, other)
  }

  lemma ValuesHaveDistinctIds(regs: Registry)
    requires KeysAreIds(regs)
    ensures DistinctIds(Values(regs))
  {
    var keys := Sorted(regs.Keys);
    SortedHasNoRepeats(regs.Keys);
    forall i | 0 <= i < |keys| ensures Values(regs)[i].id == keys[i] { ValueAt(regs, keys, i); }
  }

  lemma SpeakerIsLast(regs: Registry, k: string) returns (i: nat)
    requires SpeaksForItsDirectory(regs, k)
    ensures LastOf(Values(regs), i, regs[k].workingDirectory) && Values(regs)[i] == regs[k]
  {
    var keys := Sorted(regs.Keys);
    i :| 0 <= i < |keys| && keys[i] == k;
    ValueAt(regs, keys, i);
    SortedIncreases(regs.Keys);
    forall j | i < j < |keys| ensures Values(regs)[j].workingDirectory != regs[k].workingDirectory {
      ValueAt(regs, keys, j);
      assert Less(keys[i], keys[j]) && keys[j] in regs;
    }
  }

  /** The table agrees with the registry: each directory holds the state of the registration that speaks for it. */
  ghost predicate TableAgrees(t: Table, regs: Registry) {
    forall k | SpeaksForItsDirectory(regs, k) ::
      regs[k].workingDirectory in t && RowOf(t[regs[k].workingDirectory], regs[k])
  }

  ghost predicate InDirectory(regs: Registry, d: string) {
    exists k :: k in regs && regs[k].workingDirectory == d
  }

  /** After storing a registry the table agrees with it, and directories it does not mention are as before. */
  lemma StoredRegistryAgrees(t: Table, regs: Registry)
    requires KeysAreIds(regs) && Persisted(t, Values(regs)).Some?
    ensures var after := Persisted(t, Values(regs)).value;
            && TableAgrees(after, regs)
            && forall d | !InDirectory(regs, d) :: (d in after <==> d in t) && (d in t ==> after[d] == t[d])
  {
    var rs, after := Values(regs), Persisted(t, Values(regs)).value;
    ValuesHaveDistinctIds(regs);
    PersistExactly(t, rs);
    forall k | SpeaksForItsDirectory(regs, k)
      ensures regs[k].workingDirectory in after && RowOf(after[regs[k].workingDirectory], regs[k])
    {
      var i := SpeakerIsLast(regs, k);
    }
    forall d | !InDirectory(regs, d) ensures (d in after <==> d in t) && (d in t ==> after[d] == t[d]) {
      forall i | 0 <= i < |rs| ensures rs[i].workingDirectory != d { ValuesAreTheRange(regs, rs[i]); }
      assert !Overwritten(rs, |rs|, d);
    }
  }

  /**
   A registry can be stored: everyone lists distinct domains, and no other directory's row still
   holds someone's id unless someone of a smaller id writes that row first.
   */
  ghost predicate CanBeStored(t: Table, regs: Registry) {
    forall k | k in regs :: DistinctDomains(regs[k].domains) && IdIsReleased(t, regs, k)
  }

  ghost predicate IdIsReleased(t: Table, regs: Registry, k: string)
    requires k in regs
  {
    forall d | d in t && d != regs[k].workingDirectory && t[d].registrationId == k :: WrittenBefore(regs, k, d)
  }

  ghost predicate WrittenBefore(regs: Registry, k: string, d: string) {
    exists other :: other in regs && Less(other, k) && regs[other].workingDirectory == d
  }

  lemma ValuesByKey(regs: Registry)
    ensures |Values(regs)| == |Sorted(regs.Keys)|
    ensures forall i | 0 <= i < |Values(regs)| :: Values(regs)[i] == regs[Sorted(regs.Keys)[i]]
  {
    var keys := Sorted(regs.Keys);
    forall i | 0 <= i < |keys| ensures Values(regs)[i] == regs[keys[i]] { ValueAt(regs, keys, i); }
  }

  lemma OverwritersAreLess(regs: Registry, i: nat, d: string)
    requires i < |Sorted(regs.Keys)| && Overwritten(Values(regs), i, d)
    ensures WrittenBefore(regs, Sorted(regs.Keys)[i], d)
  {
    hide Values;
    hide Sorted;
    var keys := Sorted(regs.Keys);
    SortedIncreases(regs.Keys);
    ValuesByKey(regs);
    var j :| 0 <= j < i && Values(regs)[j].workingDirectory == d;
    assert keys[j] in regs && Less(keys[j], keys[i]);
  }

  lemma LesserOnesOverwrite(regs: Registry, i: nat, d: string)
    requires i < |Sorted(regs.Keys)| && WrittenBefore(regs, Sorted(regs.Keys)[i], d)
    ensures Overwritten(Values(regs), i, d)
  {
    hide Values;
    hide Sorted;
    hide Less;
    var keys := Sorted(regs.Keys);
    SortedIncreases(regs.Keys);
    ValuesByKey(regs);
    var other :| other in regs && Less(other, keys[i]) && regs[other].workingDirectory == d;
    var j :| 0 <= j < |keys| && keys[j] == other;
    LessIsAsymmetric(keys[i], keys[j]);
    assert j < i;
  }

  lemma WrittenBeforeExactly(regs: Registry, i: nat, d: string)
    requires i < |Sorted(regs.Keys)|
    ensures Overwritten(Values(regs), i, d) <==> WrittenBefore(regs, Sorted(regs.Keys)[i], d)
  {
    hide Overwritten;
    hide WrittenBefore;
    if Overwritten(Values(regs), i, d) {
      OverwritersAreLess(regs, i, d);
    }
    if WrittenBefore(regs, Sorted(regs.Keys)[i], d) {
      LesserOnesOverwrite(regs, i, d);
    }
  }

  /** Storing a registry succeeds exactly when it can be stored, by its ids and directories alone. */
  lemma StoringExactly(t: Table, regs: Registry)
    requires KeysAreIds(regs)
    ensures Persisted(t, Values(regs)).Some? <==> CanBeStored(t, regs)
  {
    hide Persisted;
    hide Values;
    hide Overwritten;
    hide WrittenBefore;
    hide DistinctDomains;
    var keys, rs := Sorted(regs.Keys), Values(regs);
    ValuesHaveDistinctIds(regs);
    PersistExactly(t, rs);
    ValuesByKey(regs);
    forall i | 0 <= i < |keys|
      ensures Storable(t, rs, i) <==> DistinctDomains(regs[keys[i]].domains) && IdIsReleased(t, regs, keys[i])
    {
      forall d { WrittenBeforeExactly(regs, i, d); }
    }
    forall k | k in regs ensures exists i :: 0 <= i < |keys| && keys[i] == k { assert k in keys; }
  }

  /** `again` has the activation that `left` was stored with, domain by domain for those that `left` lists. */
  ghost predicate ComesBackAs(again: Registration, left: Registration, asked: Registration) {
    && again == asked.(activation := again.activation, domains := again.domains)
    && again.activation.IsEnabled() == left.activation.IsEnabled()
    && |again.domains| == |asked.domains|
    && forall i | 0 <= i < |asked.domains| ::
         && again.domains[i].canonical == asked.domains[i].canonical
         && (forall d | d in left.domains && d.canonical == asked.domains[i].canonical ::
               again.domains[i].activation.IsEnabled() == d.activation.IsEnabled())
         && ((forall d | d in left.domains :: d.canonical != asked.domains[i].canonical) ==>
               again.domains[i] == asked.domains[i])
  }

  lemma RestoreReadsTheRow(t: Table, left: Registration, asked: Registration)
    requires asked.workingDirectory == left.workingDirectory && left.workingDirectory in t
    requires RowOf(t[left.workingDirectory], left)
    ensures ComesBackAs(RestoredFrom(t, asked), left, asked)
  {
    DomainRowsExactly(left.domains);
    forall d | d in left.domains
      ensures d.canonical in DomainRows(left.domains).value
      ensures DomainRows(left.domains).value[d.canonical] == d.activation.IsEnabled()
    {
      var i :| 0 <= i < |left.domains| && left.domains[i] == d;
    }
  }

  /**
   Restoring changes activations alone: without a row nothing; with one, the registration is as
   enabled as the row says, and so is each domain that the row knows, the others staying as asked.
   */
  lemma RestoringIsExact(t: Table, asked: Registration)
    ensures var r, d := RestoredFrom(t, asked), asked.workingDirectory;
            && r == asked.(activation := r.activation, domains := r.domains)
            && (d !in t ==> r == asked)
            && (d in t ==>
                  && r.activation.IsEnabled() == t[d].enabled && |r.domains| == |asked.domains|
                  && forall i | 0 <= i < |asked.domains| ::
                       var (now, before) := (r.domains[i], asked.domains[i]);
                       if before.canonical !in t[d].domains then now == before
                       else now.canonical == before.canonical
                            && now.activation.IsEnabled() == t[d].domains[before.canonical])
  {}

  /**
   The round trip. A project alone in its directory that is stored, then unregistered, comes back
   when it registers again, under whatever id, with the activation it had, and so does each domain
   it still lists; a domain it did not list keeps the activation it asks for.
   */
  lemma DesiredStateSurvivesUnregistration(t: Table, regs: Registry, k: string, asked: Registration)
    requires KeysAreIds(regs) && k in regs && asked.workingDirectory == regs[k].workingDirectory
    requires !InDirectory(regs - {k}, regs[k].workingDirectory)
    requires Persisted(t, Values(regs)).Some?
    requires Persisted(Persisted(t, Values(regs)).value, Values(regs - {k})).Some?
    ensures ComesBackAs(
              RestoredFrom(Persisted(Persisted(t, Values(regs)).value, Values(regs - {k})).value, asked),
              regs[k], asked)
  {
    hide Persisted;
    hide Values;
    hide RestoredFrom;
    hide ComesBackAs;
    hide RowOf;
    var stored := Persisted(t, Values(regs)).value;
    StoredRegistryAgrees(t, regs);
    assert KeysAreIds(regs - {k});
    StoredRegistryAgrees(stored, regs - {k});
    AloneSpeaks(regs, k);
    var later := Persisted(stored, Values(regs - {k})).value;
    assert later[asked.workingDirectory] == stored[asked.workingDirectory];
    RestoreReadsTheRow(later, regs[k], asked);
  }

  lemma AloneSpeaks(regs: Registry, k: string)
    requires k in regs && !InDirectory(regs - {k}, regs[k].workingDirectory)
    ensures SpeaksForItsDirectory(regs, k)
  {
    assert forall other | other in regs && other != k :: other in regs - {k} && (regs - {k})[other] == regs[other];
    LessIsAsymmetric(k, k);
  }
}
