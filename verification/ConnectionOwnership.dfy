/**
 What one connection has registered. When the connection ends, whatever its mutations, attached
 or detached, have registered and not unregistered must be taken over for cleanup.
 */
module ConnectionOwnerships {
  import opened Wrappers

  /** `ConnectionOwnershipState`, with the stored wake-up of its `Notify`. */
  datatype Ownership = Ownership(entries: map<string, string>, active: nat, disconnected: bool, wakeUp: bool)

  const CONNECTED := Ownership(map[], 0, false, false)

  function Begun(o: Ownership): (Ownership, bool) {
    if o.disconnected then (o, false) else (o.(active := o.active + 1), true)
  }

  function Inserted(o: Ownership, id: string, nonce: string): Ownership {
    o.(entries := o.entries[id := nonce])
  }

  function Removed(o: Ownership, id: string): Ownership {
    o.(entries := o.entries - {id})
  }

  /** Dropping a mutation guard: says whether the cleanup must be notified. */
  function GuardDropped(o: Ownership): (Ownership, bool)
    requires o.active > 0
  {
    (o.(active := o.active - 1), o.disconnected && o.active == 1)
  }

  function TakenIfIdle(o: Ownership): (Ownership, Option<map<string, string>>) {
    if o.active == 0 then (o.(entries := map[]), Some(o.entries)) else (o, None)
  }

  class ConnectionOwnership {
    var byRegistrationId: map<string, string>
    var activeMutations: nat
    var disconnected: bool
    var wakeUp: bool

    constructor ()
      ensures View() == CONNECTED
    {
      byRegistrationId, activeMutations, disconnected, wakeUp := map[], 0, false, false;
    }

    ghost function View(): Ownership
      reads this
    {
      Ownership(byRegistrationId, activeMutations, disconnected, wakeUp)
    }

    method BeginMutation() returns (admitted: bool)
      modifies this`activeMutations
      ensures (View(), admitted) == Begun(old(View()))
    {
      if disconnected {
        return false;
      }
      activeMutations := activeMutations + 1;
      return true;
    }

    method Insert(id: string, nonce: string)
      modifies this`byRegistrationId
      ensures View() == Inserted(old(View()), id, nonce)
    {
      byRegistrationId := byRegistrationId[id := nonce];
    }

    method Remove(id: string)
      modifies this`byRegistrationId
      ensures View() == Removed(old(View()), id)
    {
      byRegistrationId := byRegistrationId - {id};
    }

    method DropGuard() returns (notify: bool)
      requires activeMutations > 0
      modifies this`activeMutations
      ensures (View(), notify) == GuardDropped(old(View()))
    {
      activeMutations := activeMutations - 1;
      return disconnected && activeMutations == 0;
    }

    method TakeIfIdle() returns (taken: Option<map<string, string>>)
      modifies this`byRegistrationId
      ensures (View(), taken) == TakenIfIdle(old(View()))
    {
      if activeMutations != 0 {
        return None;
      }
      taken := Some(byRegistrationId);
      byRegistrationId := map[];
    }
  }

  // ---------------------------------------------------------------- runs

  /** The cleanup task: about to look, between looking and waiting, asleep, or done. */
  datatype Cleanup = Idle | Looking | BeforeWaiting | Asleep | Done(taken: map<string, string>)

  /** What a mutation did to the connection's entries, in the order of the lock. */
  datatype Change = Insertion(id: string, nonce: string) | Removal(id: string)

  /**
   `guards` are the mutations whose guard is alive, by number, and `issued` counts them all; `owed`
   counts the guards that have left under the lock and are still to notify, after releasing it.
   */
  datatype Connection = Connection(
    o: Ownership,
    guards: set<nat>,
    issued: nat,
    owed: nat,
    cleanup: Cleanup,
    changes: seq<Change>)

  const OPENED := Connection(CONNECTED, {}, 0, 0, Idle, [])

  datatype Event =
    | Begin
    | Mutate(guard: nat, change: Change)
    | Drop(guard: nat)
    | Notify
    | Disconnect
    | Look
    | Wait

  function Changed(o: Ownership, change: Change): Ownership {
    match change
    case Insertion(id, nonce) => Inserted(o, id, nonce)
    case Removal(id) => Removed(o, id)
  }

  /** `notify_one`: wakes the sleeper, or is stored until someone waits. */
  function Notified(c: Connection): Connection {
    if c.cleanup.Asleep? then c.(cleanup := Looking) else c.(o := c.o.(wakeUp := true))
  }

  function Step(c: Connection, e: Event): Connection {
    match e
    case Begin =>
      var (o, admitted) := Begun(c.o);
      if admitted then c.(o := o, guards := c.guards + {c.issued}, issued := c.issued + 1) else c
    case Mutate(guard, change) =>
      if guard in c.guards then c.(o := Changed(c.o, change), changes := c.changes + [change]) else c
    case Drop(guard) =>
      if guard !in c.guards || c.o.active == 0 then c else
      var (o, notify) := GuardDropped(c.o);
      c.(o := o, guards := c.guards - {guard}, owed := c.owed + if notify then 1 else 0)
    case Notify => if c.owed > 0 then Notified(c.(owed := c.owed - 1)) else c
    case Disconnect =>
      if c.cleanup.Idle? then c.(o := c.o.(disconnected := true), cleanup := Looking) else c
    case Look =>
      if !c.cleanup.Looking? then c else
      var (o, taken) := TakenIfIdle(c.o);
      c.(o := o, cleanup := if taken.Some? then Done(taken.value) else BeforeWaiting)
    case Wait =>
      if !c.cleanup.BeforeWaiting? then c
      else if c.o.wakeUp then c.(o := c.o.(wakeUp := false), cleanup := Looking)
      else c.(cleanup := Asleep)
  }

  function Run(c: Connection, events: seq<Event>): Connection
    decreases |events|
  {
    if events == [] then c else Run(Step(c, events[0]), events[1..])
  }

  /** The last change of `id` inserted it, with that nonce. */
  ghost predicate StandsInserted(changes: seq<Change>, id: string, nonce: string) {
    exists i :: 0 <= i < |changes| && changes[i] == Insertion(id, nonce)
                && forall j | i < j < |changes| :: changes[j].id != id
  }

  ghost predicate EntriesAre(entries: map<string, string>, changes: seq<Change>) {
    forall id, nonce :: (id in entries && entries[id] == nonce) <==> StandsInserted(changes, id, nonce)
  }

  /** A wake-up that nobody has consumed yet: stored, or owed by a guard that has let go of the lock. */
  predicate WakeUpDue(c: Connection) {
    c.o.wakeUp || c.owed > 0
  }

  ghost predicate CountsAgree(c: Connection) {
    && c.o.active == |c.guards|
    && (forall g | g in c.guards :: g < c.issued)
    && (c.o.disconnected <==> !c.cleanup.Idle?)
    && (WakeUpDue(c) ==> c.o.disconnected && c.o.active == 0)
    && (c.cleanup.BeforeWaiting? ==> c.o.active > 0 || WakeUpDue(c))
    && (c.cleanup.Asleep? ==> c.o.active > 0 || c.owed > 0)
    && (c.cleanup.Done? ==> c.o.active == 0)
  }

  /** The entries, or what the cleanup has taken of them, are what the changes say. */
  ghost predicate EntriesAgree(c: Connection) {
    EntriesAre(if c.cleanup.Done? then c.cleanup.taken else c.o.entries, c.changes)
  }

  ghost predicate Inv(c: Connection) {
    CountsAgree(c) && EntriesAgree(c)
  }

  lemma OwnChangeDecides(changes: seq<Change>, change: Change, id: string, nonce: string)
    requires change.id == id
    ensures StandsInserted(changes + [change], id, nonce) <==> change == Insertion(id, nonce)
  {
    var after := changes + [change];
    assert after[|changes|] == change;
    if StandsInserted(after, id, nonce) {
      var i :| 0 <= i < |after| && after[i] == Insertion(id, nonce) && forall j | i < j < |after| :: after[j].id != id;
      assert i == |changes|;
    }
  }

  lemma OthersChangeNothing(changes: seq<Change>, change: Change, id: string, nonce: string)
    requires change.id != id
    ensures StandsInserted(changes + [change], id, nonce) <==> StandsInserted(changes, id, nonce)
  {
    var after := changes + [change];
    assert forall i | 0 <= i < |changes| :: after[i] == changes[i];
    if StandsInserted(changes, id, nonce) {
      var i :| 0 <= i < |changes| && changes[i] == Insertion(id, nonce)
               && forall j | i < j < |changes| :: changes[j].id != id;
      assert after[i] == Insertion(id, nonce);
    }
  }

  lemma ChangeKeepsEntries(o: Ownership, changes: seq<Change>, change: Change)
    requires EntriesAre(o.entries, changes)
    ensures EntriesAre(Changed(o, change).entries, changes + [change])
  {
    var after, entries := changes + [change], Changed(o, change).entries;
    forall id, nonce ensures (id in entries && entries[id] == nonce) <==> StandsInserted(after, id, nonce) {
      hide StandsInserted;
      if change.id == id {
        OwnChangeDecides(changes, change, id, nonce);
      } else {
        OthersChangeNothing(changes, change, id, nonce);
      }
    }
  }

  lemma StepKeepsCounts(c: Connection, e: Event)
    requires CountsAgree(c)
    ensures CountsAgree(Step(c, e))
  {}

  lemma StepKeepsEntries(c: Connection, e: Event)
    requires Inv(c)
    ensures EntriesAgree(Step(c, e))
  {
    hide EntriesAre;
    if e.Mutate? && e.guard in c.guards {
      assert |c.guards| > 0;
      ChangeKeepsEntries(c.o, c.changes, e.change);
    }
  }

  lemma StepKeepsInv(c: Connection, e: Event)
    requires Inv(c)
    ensures Inv(Step(c, e))
  {
    hide Step;
    hide CountsAgree;
    hide EntriesAgree;
    StepKeepsCounts(c, e);
    StepKeepsEntries(c, e);
  }

  lemma {:induction false} RunKeepsInv(c: Connection, events: seq<Event>)
    requires Inv(c)
    ensures Inv(Run(c, events))
    decreases |events|
  {
    if events != [] {
      StepKeepsInv(c, events[0]);
      RunKeepsInv(Step(c, events[0]), events[1..]);
    }
  }

  lemma {:induction false} DoneIsForever(c: Connection, events: seq<Event>)
    requires Inv(c) && c.cleanup.Done?
    ensures Run(c, events).cleanup == c.cleanup && Run(c, events).changes == c.changes
    decreases |events|
  {
    if events != [] {
      StepKeepsInv(c, events[0]);
      assert c.guards == {};
      DoneIsForever(Step(c, events[0]), events[1..]);
    }
  }

  /**
   Cleanup misses nothing. In every interleaving, what the cleanup takes is exactly what was
   inserted and not removed since, and no mutation, attached or detached, inserts anything afterwards.
   */
  lemma CleanupMissesNothing(before: seq<Event>, after: seq<Event>)
    ensures var now, later := Run(OPENED, before), Run(Run(OPENED, before), after);
            now.cleanup.Done? ==>
              && EntriesAre(now.cleanup.taken, now.changes)
              && later.changes == now.changes && later.cleanup == now.cleanup
  {
    OpenedInv();
    RunKeepsInv(OPENED, before);
    if Run(OPENED, before).cleanup.Done? {
      DoneIsForever(Run(OPENED, before), after);
    }
  }

  lemma OpenedInv()
    ensures Inv(OPENED)
  {
    assert forall id, nonce :: !StandsInserted([], id, nonce);
  }

  /**
   Until the connection is disconnected every mutation is admitted, with a guard of its own; after
   that none. As long as its guard is alive a mutation's changes count, and dropping it releases it
   alone; the cleanup takes the entries exactly when no guard is left.
   */
  lemma GuardsAreExact(events: seq<Event>, guard: nat, change: Change)
    ensures var c := Run(OPENED, events);
            && c.o.active == |c.guards|
            && (!c.o.disconnected ==>
                  var next := Step(c, Begin);
                  c.issued !in c.guards && next.guards == c.guards + {c.issued} && next.issued == c.issued + 1)
            && (c.o.disconnected ==> Step(c, Begin) == c)
            && (guard in c.guards ==>
                  && Step(c, Mutate(guard, change)).changes == c.changes + [change]
                  && Step(c, Drop(guard)).guards == c.guards - {guard})
            && (c.cleanup.Looking? ==> (Step(c, Look).cleanup.Done? <==> c.guards == {}))
  {
    OpenedInv();
    RunKeepsInv(OPENED, events);
    var c := Run(OPENED, events);
    hide EntriesAgree;
    assert guard in c.guards ==> |c.guards| > 0;
    assert |c.guards| == 0 <==> c.guards == {};
  }

  function Drops(guards: seq<nat>): seq<Event> {
    seq(|guards|, i requires 0 <= i < |guards| => Drop(guards[i]))
  }

  lemma {:induction false} DroppingAll(c: Connection, guards: seq<nat>)
    requires Inv(c) && c.o.disconnected
    requires forall g | g in c.guards :: g in guards
    ensures var after := Run(c, Drops(guards));
            Inv(after) && after.guards == {} && after.o.disconnected
    decreases |guards|
  {
    hide EntriesAgree;
    if guards == [] {
      assert c.guards == {};
    } else {
      StepKeepsInv(c, Drop(guards[0]));
      assert Drops(guards)[1..] == Drops(guards[1..]);
      DroppingAll(Step(c, Drop(guards[0])), guards[1..]);
    }
  }

  lemma {:induction false} RunConcat(c: Connection, a: seq<Event>, b: seq<Event>)
    ensures Run(c, a + b) == Run(Run(c, a), b)
    decreases |a|
  {
    if a == [] {
      assert a + b == b;
    } else {
      assert (a + b)[1..] == a[1..] + b;
      RunConcat(Step(c, a[0]), a[1..], b);
    }
  }

  lemma RunOfThree(c: Connection, a: Event, b: Event, e: Event)
    ensures Run(c, [a, b, e]) == Step(Step(Step(c, a), b), e)
  {
    hide Step;
    assert [a, b, e][1..] == [b, e] && [b, e][1..] == [e] && [e][1..] == [];
    assert Run(Step(c, a), [b, e]) == Run(Step(Step(c, a), b), [e]);
    assert Run(Step(Step(c, a), b), [e]) == Run(Step(Step(Step(c, a), b), e), []);
  }

  /** With every guard gone, the notification that may be owed is all that the cleanup still needs. */
  lemma IdleCleanupFinishes(c: Connection)
    requires CountsAgree(c) && c.o.disconnected && c.guards == {}
    ensures Step(Step(Step(c, Notify), Wait), Look).cleanup.Done?
  {}

  /**
   No lost wake-up, between the lock and the notification included. At every reachable point a
   sleeping cleanup with no mutation active is owed its wake-up by a guard that has let go of the
   lock; and once the guards are dropped and have notified, the cleanup takes its entries.
   */
  lemma CleanupFinishes(events: seq<Event>, guards: seq<nat>)
    requires var c := Run(OPENED, events); c.o.disconnected && forall g | g in c.guards :: g in guards
    ensures var c := Run(OPENED, events);
            && (c.cleanup.Asleep? && c.o.active == 0 ==> c.owed > 0)
            && Run(c, Drops(guards) + [Notify, Wait, Look]).cleanup.Done?
  {
    OpenedInv();
    RunKeepsInv(OPENED, events);
    var c := Run(OPENED, events);
    DroppingAll(c, guards);
    RunConcat(c, Drops(guards), [Notify, Wait, Look]);
    RunOfThree(Run(c, Drops(guards)), Notify, Wait, Look);
    IdleCleanupFinishes(Run(c, Drops(guards)));
  }

  /**
   The window is real: the last guard has let go of the lock, nobody is active, and the cleanup
   sleeps on until that guard notifies it.
   */
  lemma SleepingWhileOwed()
    ensures var c := Run(OPENED, [Begin, Disconnect, Look, Wait, Drop(0)]);
            c.cleanup.Asleep? && c.o.active == 0 && c.owed == 1 && Step(c, Notify).cleanup.Looking?
  {
    var c := Step(Step(Step(Step(Step(OPENED, Begin), Disconnect), Look), Wait), Drop(0));
    assert [Begin, Disconnect, Look, Wait, Drop(0)] == [Begin, Disconnect, Look] + [Wait, Drop(0)];
    RunConcat(OPENED, [Begin, Disconnect, Look], [Wait, Drop(0)]);
    RunOfThree(OPENED, Begin, Disconnect, Look);
    var d := Step(Step(Step(OPENED, Begin), Disconnect), Look);
    assert [Wait, Drop(0)][1..] == [Drop(0)] && [Drop(0)][1..] == [];
    assert Run(d, [Wait, Drop(0)]) == Run(Step(d, Wait), [Drop(0)]);
    assert Run(Step(d, Wait), [Drop(0)]) == Run(Step(Step(d, Wait), Drop(0)), []);
  }
}
