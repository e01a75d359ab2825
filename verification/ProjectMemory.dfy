/**
 A project's wishes outlive its registration: what the database holds for a directory nobody is
 in stays, and comes back.
 */
module ProjectMemory {
  import opened Wrappers
  import opened Registrations
  import opened Coordinator
  import opened OperationFences
  import opened DesiredState
  import opened DaemonTransactions
  import opened DaemonRequests
  import opened DaemonInvariants
  import opened DaemonRuns
  import opened DaemonEffects

  ghost predicate SameRow(before: Option<Table>, after: Option<Table>, directory: string) {
    && (before.Some? <==> after.Some?)
    && (before.Some? ==>
          && (directory in before.value <==> directory in after.value)
          && (directory in before.value ==> after.value[directory] == before.value[directory]))
  }

  /** The table is as it was, or is what storing the new registry made of it. */
  ghost predicate StoredOrKept(before: Daemon, after: Daemon, s: Schedule) {
    || after.table == before.table
    || Some(after.table) == PersistedTable(before.table, after.registrations, s.persistFails)
  }

  lemma ExecutedTable(d: Daemon, f: Fence, p: Plan, regs: Registry, s: Schedule, how: Rendering)
    ensures StoredOrKept(d, Executed(d, f, p, regs, s, how).0, s)
  {
    hide AppliedTransition;
    hide Published;
    hide PersistedTable;
    TransactionsAreAllOrNothing(d, f, p, regs, s, how);
    if Executed(d, f, p, regs, s, how).2.None? {
      TransitionIsMidway(d, f, p, regs, s, how);
      var a := AppliedTransition(d, f, p, regs, s, how);
      SuccessfulPublishing(a.daemon, a.fence, a.plan, regs, a.receipt, s);
    }
  }

  lemma HandledTable(d: Daemon, f: Fence, request: Request, s: Schedule, how: Rendering)
    ensures StoredOrKept(d, Handled(d, f, request, s, how).0, s)
  {
    hide Executed;
    hide ProposalFor;
    hide PersistedTable;
    PreparingIsHeartbeats(d, f, request, s);
    var x := ProposalFor(d, f, request, s);
    if x.Proposed? {
      ExecutedTable(x.daemon, x.fence, x.plan, x.registrations, s, how);
    }
  }

  /** A step that leaves nobody in a directory leaves its row alone. */
  lemma NextKeepsRow(d: Daemon, step: Step, how: Rendering, directory: string)
    requires DaemonInv(d, how) && !InDirectory(Next(d, step, how).registrations, directory)
    ensures SameRow(d.table, Next(d, step, how).table, directory)
  {
    hide Handled;
    hide Persisted;
    NextKeepsInv(d, step, how);
    match step
    case Serve(f, request, s) =>
      HandledTable(d, f, request, s, how);
      var after := Handled(d, f, request, s, how).0;
      if d.table.Some? && Persisted(d.table.value, Values(after.registrations)).Some? {
        StoredRegistryAgrees(d.table.value, after.registrations);
      }
    case Meanwhile(e) => InterferenceIsHeartbeats(d, NOBODYS_FENCE, [e], false);
  }

  ghost predicate StaysEmpty(d: Daemon, steps: seq<Step>, how: Rendering, directory: string)
    decreases |steps|
  {
    && !InDirectory(d.registrations, directory)
    && (steps == [] || StaysEmpty(Next(d, steps[0], how), steps[1..], how, directory))
  }

  lemma {:induction false} RunKeepsRow(d: Daemon, steps: seq<Step>, how: Rendering, directory: string)
    requires DaemonInv(d, how) && StaysEmpty(d, steps, how, directory)
    ensures SameRow(d.table, DaemonRuns.Run(d, steps, how).table, directory)
    decreases |steps|
  {
    hide Next;
    if steps != [] {
      var next := Next(d, steps[0], how);
      assert !InDirectory(next.registrations, directory);
      NextKeepsInv(d, steps[0], how);
      NextKeepsRow(d, steps[0], how, directory);
      RunKeepsRow(next, steps[1..], how, directory);
    }
  }

  /** The client's registration, with the adapter's domains. */
  function Asked(r: Registration, adapted: Adapted): Registration {
    r.(domains := adapted.domains)
  }

  /** In a daemon with a database, `id` is registered from this directory and nobody else is. */
  ghost predicate LivesAlone(d: Daemon, id: string, directory: string, how: Rendering) {
    && DaemonInv(d, how) && d.table.Some?
    && id in d.registrations && d.registrations[id].workingDirectory == directory
    && !InDirectory(d.registrations - {id}, directory)
  }

  /**
   Projects come back as they left. In a daemon with a database, let a project that is alone in its
   working directory be unregistered, and let anything happen while nobody is registered from
   there. When a registration from that directory is next accepted, under whatever id, it has the
   activation that the project had, and so does each domain that the project listed.
   */
  lemma ProjectsComeBack(d: Daemon, id: string, leave: Step, steps: seq<Step>, f: Fence, r: Registration,
                         adapted: Adapted, s: Schedule, how: Rendering)
    ensures LivesAlone(d, id, r.workingDirectory, how)
            && StaysEmpty(Next(d, leave, how), steps, how, r.workingDirectory)
            ==> ComesBack(DaemonRuns.Run(Next(d, leave, how), steps, how), d.registrations[id], f, r, adapted, s, how)
  {
    hide Handled;
    hide Next;
    hide ComesBackAs;
    hide RowOf;
    var directory := r.workingDirectory;
    if LivesAlone(d, id, directory, how) && StaysEmpty(Next(d, leave, how), steps, how, directory) {
      AloneSpeaks(d.registrations, id);
      assert directory in d.table.value && RowOf(d.table.value[directory], d.registrations[id]);
      var gone := Next(d, leave, how);
      NextKeepsInv(d, leave, how);
      NextKeepsRow(d, leave, how, directory);
      RunKeepsRow(gone, steps, how, directory);
      StoredComesBack(DaemonRuns.Run(gone, steps, how), d.registrations[id], f, r, adapted, s, how);
    }
  }

  /** If the registration is accepted, it has the activation of `left`, domain by domain. */
  ghost predicate ComesBack(now: Daemon, left: Registration, f: Fence, r: Registration, adapted: Adapted, s: Schedule,
                            how: Rendering) {
    var (after, _, answer) := Handled(now, f, Register(r, adapted), s, how);
    answer == Ok(Accepted) ==>
      && r.id in after.registrations
      && ComesBackAs(after.registrations[r.id].(createdAt := r.createdAt, lastHeartbeat := r.lastHeartbeat), left,
                     Asked(r, adapted))
  }

  lemma StoredComesBack(now: Daemon, left: Registration, f: Fence, r: Registration, adapted: Adapted, s: Schedule,
                        how: Rendering)
    requires now.table.Some? && left.workingDirectory in now.table.value && r.workingDirectory == left.workingDirectory
    requires RowOf(now.table.value[left.workingDirectory], left)
    ensures ComesBack(now, left, f, r, adapted, s, how)
  {
    hide Handled;
    hide ComesBackAs;
    hide RowOf;
    var (after, _, answer) := Handled(now, f, Register(r, adapted), s, how);
    if answer == Ok(Accepted) {
      AcceptedHasDone(now, f, Register(r, adapted), s, how);
      RestoreReadsTheRow(now.table.value, left, Asked(r, adapted));
      RestoringKeepsTimes(now.table.value, Asked(r, adapted),
                          after.registrations[r.id].createdAt, after.registrations[r.id].lastHeartbeat);
    }
  }

  lemma RestoringKeepsTimes(t: Table, r: Registration, createdAt: int, lastHeartbeat: int)
    ensures RestoredFrom(t, r).(createdAt := createdAt, lastHeartbeat := lastHeartbeat)
              .(createdAt := r.createdAt, lastHeartbeat := r.lastHeartbeat) == RestoredFrom(t, r)
  {}
}
