/**
 Claiming the local endpoint on Unix: any number of daemon processes race for one socket path
 under an advisory lock, and any of them may crash at any step. A socket file outlives its owner.
 */
module EndpointClaim {
  import opened Wrappers

  /**
   Where a process stands. `Creating` is about to bind, for the second time after it has removed
   a stale file; `Bound` does not listen yet; `Leased` still holds the claim lock, `Serving` does not.
   */
  datatype Process =
    | Started
    | Creating(again: bool)
    | Bound(socket: nat, again: bool)
    | Listening(socket: nat, again: bool)
    | Leased(socket: nat)
    | Serving(socket: nat)
    | Contended
    | FoundStale
    | Gone

  /** `path` is the socket whose file is at the path; `sockets` counts all sockets ever bound. */
  datatype System = System(processes: seq<Process>, lock: Option<nat>, path: Option<nat>, sockets: nat)

  /** The path may hold a file left behind by an earlier boot. */
  function Boot(leftBehind: bool): System {
    System([], None, if leftBehind then Some(0) else None, 1)
  }

  datatype Step =
    | Acquire
    | Bind
    | BindDenied
    | Listen
    | Secure(ok: bool)
    | Probe(unsure: bool)
    | Unlink
    | ReleaseLock
    | Crash

  datatype Event = Spawn | By(p: nat, step: Step)

  predicate HoldsSocket(x: Process) {
    x.Bound? || x.Listening? || x.Leased? || x.Serving?
  }

  predicate Answers(x: Process) {
    x.Listening? || x.Leased? || x.Serving?
  }

  predicate HoldsLease(x: Process) {
    x.Leased? || x.Serving?
  }

  predicate HoldsLock(x: Process) {
    !x.Started? && !x.Serving? && !x.Gone?
  }

  /** Someone answers on the socket whose file is at the path. */
  predicate SomeoneAnswers(y: System) {
    exists q: nat :: q < |y.processes| && AnswersAtPath(y, y.processes[q])
  }

  predicate AnswersAtPath(y: System, x: Process) {
    Answers(x) && y.path == Some(x.socket)
  }

  function Moved(y: System, p: nat, x: Process): System
    requires p < |y.processes|
  {
    y.(processes := y.processes[p := x], lock := if HoldsLock(y.processes[p]) && !HoldsLock(x) then None else y.lock)
  }

  function CreationFailed(y: System, p: nat, again: bool): System
    requires p < |y.processes|
  {
    Moved(y, p, if again then Gone else Contended)
  }

  /** One step of process `p`; a step that does not apply where it stands does nothing. */
  function Stepped(y: System, p: nat, step: Step): System
    requires p < |y.processes|
  {
    var x := y.processes[p];
    match step
    case Acquire =>
      if x.Started? && y.lock.None? then y.(processes := y.processes[p := Creating(false)], lock := Some(p)) else y
    case Bind =>
      if !x.Creating? then y
      else if y.path.Some? then CreationFailed(y, p, x.again)
      else Moved(y, p, Bound(y.sockets, x.again)).(path := Some(y.sockets), sockets := y.sockets + 1)
    case BindDenied => if x.Creating? then CreationFailed(y, p, x.again) else y
    case Listen => if x.Bound? then Moved(y, p, Listening(x.socket, x.again)) else y
    case Secure(ok) =>
      if !x.Listening? then y else if ok then Moved(y, p, Leased(x.socket)) else CreationFailed(y, p, x.again)
    case Probe(unsure) =>
      if !x.Contended? then y
      else if SomeoneAnswers(y) || unsure then Moved(y, p, Gone)
      else Moved(y, p, FoundStale)
    case Unlink =>
      if !x.FoundStale? then y
      else if y.path.None? then Moved(y, p, Gone)
      else Moved(y, p, Creating(true)).(path := None)
    case ReleaseLock => if x.Leased? then Moved(y, p, Serving(x.socket)) else y
    case Crash => Moved(y, p, Gone)
  }

  function Next(y: System, e: Event): System {
    match e
    case Spawn => y.(processes := y.processes + [Started])
    case By(p, step) => if p < |y.processes| then Stepped(y, p, step) else y
  }

  function Run(y: System, events: seq<Event>): System
    decreases |events|
  {
    if events == [] then y else Run(Next(y, events[0]), events[1..])
  }

  ghost predicate NoSocket(y: System) {
    forall p: nat | p < |y.processes| :: !HoldsSocket(y.processes[p])
  }

  /** The lock is with the one process that stands where it is needed. */
  ghost predicate LockInv(y: System) {
    forall p: nat | p < |y.processes| :: HoldsLock(y.processes[p]) <==> y.lock == Some(p)
  }

  /**
   Any live socket is the one at the path, and it has one holder; whoever found the file stale was
   right and still is.
   */
  ghost predicate SocketInv(y: System) {
    && (forall p: nat | p < |y.processes| && HoldsSocket(y.processes[p]) ::
          y.path == Some(y.processes[p].socket) && y.processes[p].socket < y.sockets)
    && (forall p: nat, q: nat | p < |y.processes| && q < |y.processes|
          && HoldsSocket(y.processes[p]) && HoldsSocket(y.processes[q]) :: p == q)
    && (forall p: nat | p < |y.processes| && y.processes[p].FoundStale? :: NoSocket(y))
  }

  ghost predicate Inv(y: System) {
    LockInv(y) && SocketInv(y) && (y.lock.Some? ==> y.lock.value < |y.processes|)
  }

  predicate KeepsSocket(x: Process, next: Process) {
    HoldsSocket(next) ==> HoldsSocket(x) && next.socket == x.socket
  }

  /** A step that takes no lock and no socket. */
  lemma MovingKeepsInv(y: System, p: nat, next: Process)
    requires Inv(y) && p < |y.processes|
    requires KeepsSocket(y.processes[p], next) && (HoldsLock(next) ==> HoldsLock(y.processes[p]))
    requires next.FoundStale? ==> NoSocket(y)
    ensures Inv(Moved(y, p, next))
  {
    hide HoldsLock;
    var z := Moved(y, p, next);
    assert forall q: nat | q < |y.processes| && q != p :: z.processes[q] == y.processes[q];
    if NoSocket(y) {
      assert NoSocket(z);
    }
  }

  /**
   With the lock in hand, silence on the path means that nobody has a socket: only its holder could
   be bound and not listening.
   */
  lemma SilenceMeansNobody(y: System, p: nat)
    requires Inv(y) && p < |y.processes| && y.processes[p].Contended? && !SomeoneAnswers(y)
    ensures NoSocket(y)
  {
    assert HoldsLock(y.processes[p]);
    assert forall q: nat | q < |y.processes| :: !AnswersAtPath(y, y.processes[q]);
  }

  lemma BindingKeepsInv(y: System, p: nat, again: bool)
    requires Inv(y) && p < |y.processes| && y.processes[p] == Creating(again) && y.path.None?
    ensures Inv(Stepped(y, p, Bind))
  {
    var z := Stepped(y, p, Bind);
    assert NoSocket(y);
    assert HoldsLock(y.processes[p]) && HoldsLock(z.processes[p]);
    forall q: nat | q < |y.processes| && q != p
      ensures z.processes[q] == y.processes[q] && !z.processes[q].FoundStale?
    {
      assert HoldsLock(y.processes[q]) <==> y.lock == Some(q);
    }
  }

  lemma UnlinkingKeepsInv(y: System, p: nat)
    requires Inv(y) && p < |y.processes| && y.processes[p].FoundStale?
    ensures NoSocket(y) && Inv(Moved(y, p, Creating(true)).(path := None))
  {
    MovingKeepsInv(y, p, Creating(true));
    var z := Moved(y, p, Creating(true));
    assert NoSocket(z);
  }

  lemma AcquiringKeepsInv(y: System, p: nat)
    requires Inv(y) && p < |y.processes| && y.processes[p].Started? && y.lock.None?
    ensures Inv(Stepped(y, p, Acquire))
  {
    var z := Stepped(y, p, Acquire);
    forall q: nat | q < |y.processes| && q != p ensures z.processes[q] == y.processes[q] && !HoldsLock(z.processes[q]) {
      assert HoldsLock(y.processes[q]) <==> y.lock == Some(q);
    }
    assert SocketInv(z);
  }

  lemma StepKeepsInv(y: System, p: nat, step: Step)
    requires Inv(y) && p < |y.processes|
    ensures Inv(Stepped(y, p, step))
  {
    hide Inv;
    hide Moved;
    var x := y.processes[p];
    match step
    case Acquire => if x.Started? && y.lock.None? { AcquiringKeepsInv(y, p); }
    case Bind =>
      if x.Creating? {
        if y.path.None? {
          BindingKeepsInv(y, p, x.again);
        } else {
          MovingKeepsInv(y, p, if x.again then Gone else Contended);
        }
      }
    case BindDenied => if x.Creating? { MovingKeepsInv(y, p, if x.again then Gone else Contended); }
    case Listen => if x.Bound? { MovingKeepsInv(y, p, Listening(x.socket, x.again)); }
    case Secure(ok) =>
      if x.Listening? { MovingKeepsInv(y, p, if ok then Leased(x.socket) else if x.again then Gone else Contended); }
    case Probe(unsure) =>
      if x.Contended? {
        if SomeoneAnswers(y) || unsure {
          MovingKeepsInv(y, p, Gone);
        } else {
          SilenceMeansNobody(y, p);
          MovingKeepsInv(y, p, FoundStale);
        }
      }
    case Unlink =>
      if x.FoundStale? {
        if y.path.None? {
          MovingKeepsInv(y, p, Gone);
        } else {
          UnlinkingKeepsInv(y, p);
        }
      }
    case ReleaseLock => if x.Leased? { MovingKeepsInv(y, p, Serving(x.socket)); }
    case Crash => MovingKeepsInv(y, p, Gone);
  }

  lemma {:induction false} RunKeepsInv(y: System, events: seq<Event>)
    requires Inv(y)
    ensures Inv(Run(y, events))
    decreases |events|
  {
    if events != [] {
      match events[0] {
        case Spawn =>
        case By(p, step) => if p < |y.processes| { StepKeepsInv(y, p, step); }
      }
      RunKeepsInv(Next(y, events[0]), events[1..]);
    }
  }

  /**
   In every run, crashes included, at most one live process holds the lease, and its socket is the
   one at the path.
   */
  lemma OneLiveOwner(leftBehind: bool, events: seq<Event>, p: nat, q: nat)
    requires var y := Run(Boot(leftBehind), events);
             p < |y.processes| && q < |y.processes| && HoldsLease(y.processes[p])
    ensures var y := Run(Boot(leftBehind), events);
            y.path == Some(y.processes[p].socket) && (HoldsLease(y.processes[q]) ==> p == q)
  {
    RunKeepsInv(Boot(leftBehind), events);
  }

  /**
   Removing a stale file never takes a socket from a live process, not even from one that is bound
   and does not listen yet.
   */
  lemma LiveSocketsStay(leftBehind: bool, events: seq<Event>, e: Event, q: nat)
    requires var y := Run(Boot(leftBehind), events); q < |y.processes| && HoldsSocket(y.processes[q])
    ensures var y := Run(Boot(leftBehind), events);
            var after := Next(y, e);
            HoldsSocket(after.processes[q]) ==> after.path == Some(y.processes[q].socket) == y.path
  {
    var y := Run(Boot(leftBehind), events);
    RunKeepsInv(Boot(leftBehind), events);
    match e
    case Spawn =>
    case By(p, step) => if p < |y.processes| { StepKeepsInv(y, p, step); }
  }

  // ---------------------------------------------------------------- who runs alone gets the lease

  /** The steps of one process, in order, with nobody else's in between. */
  function Undisturbed(p: nat, steps: seq<Step>): seq<Event> {
    seq(|steps|, i requires 0 <= i < |steps| => By(p, steps[i]))
  }

  lemma UndisturbedStep(y: System, p: nat, steps: seq<Step>)
    requires steps != []
    ensures Run(y, Undisturbed(p, steps)) == Run(Next(y, By(p, steps[0])), Undisturbed(p, steps[1..]))
  {
    assert Undisturbed(p, steps)[1..] == Undisturbed(p, steps[1..]);
  }

  lemma FirstOf(step: Step, rest: seq<Step>)
    ensures ([step] + rest)[0] == step && ([step] + rest)[1..] == rest
  {}

  lemma Taken(y: System, p: nat, step: Step, rest: seq<Step>)
    ensures Run(y, Undisturbed(p, [step] + rest)) == Run(Next(y, By(p, step)), Undisturbed(p, rest))
  {
    hide Run;
    UndisturbedStep(y, p, [step] + rest);
    FirstOf(step, rest);
  }

  ghost predicate NobodyElse(y: System, p: nat) {
    forall q: nat | q < |y.processes| && q != p :: y.processes[q].Started? || y.processes[q].Gone?
  }

  /** The process has got the lease, with its own socket at the path, and the others stand where they stood. */
  ghost predicate HasLeased(y: System, p: nat, end: System) {
    && |end.processes| == |y.processes| && p < |y.processes|
    && end.processes[p].Leased? && end.path == Some(end.processes[p].socket)
    && end.processes[p].socket >= y.sockets
    && forall q: nat | q < |y.processes| && q != p :: end.processes[q] == y.processes[q]
  }

  /** With nothing at the path, a process about to bind gets the lease with that bind. */
  lemma BindingLeases(y: System, p: nat)
    requires p < |y.processes| && y.processes[p].Creating? && y.path.None?
    ensures HasLeased(y, p, Run(y, Undisturbed(p, [Bind] + ([Listen] + ([Secure(true)] + [])))))
  {
    hide Run;
    var a := Next(y, By(p, Bind));
    var b := Next(a, By(p, Listen));
    Taken(y, p, Bind, [Listen] + ([Secure(true)] + []));
    Taken(a, p, Listen, [Secure(true)] + []);
    Taken(b, p, Secure(true), []);
    NothingRuns(Next(b, By(p, Secure(true))), p);
  }

  lemma NothingRuns(y: System, p: nat)
    ensures Run(y, Undisturbed(p, [])) == y
  {}

  const LISTENING_STEPS := [Bind] + ([Listen] + ([Secure(true)] + []))

  const RECOVERING_STEPS := [Probe(false)] + ([Unlink] + LISTENING_STEPS)

  /** With a file at the path that nobody answers on, a process whose first attempt has failed recovers. */
  lemma RecoveringLeases(y: System, p: nat)
    requires p < |y.processes| && y.processes[p].Contended? && y.path.Some? && NoSocket(y)
    ensures HasLeased(y, p, Run(y, Undisturbed(p, RECOVERING_STEPS)))
  {
    hide Run;
    var a := Next(y, By(p, Probe(false)));
    var b := Next(a, By(p, Unlink));
    assert !SomeoneAnswers(y);
    Taken(y, p, Probe(false), [Unlink] + LISTENING_STEPS);
    Taken(a, p, Unlink, LISTENING_STEPS);
    BindingLeases(b, p);
  }

  lemma NobodyElseMeansFree(leftBehind: bool, events: seq<Event>, p: nat)
    requires var y := Run(Boot(leftBehind), events);
             p < |y.processes| && y.processes[p].Started? && NobodyElse(y, p)
    ensures Run(Boot(leftBehind), events).lock.None? && NoSocket(Run(Boot(leftBehind), events))
  {
    RunKeepsInv(Boot(leftBehind), events);
    var y := Run(Boot(leftBehind), events);
    assert forall q: nat | q < |y.processes| :: !HoldsLock(y.processes[q]);
  }

  /** An ordinary start: with nothing at the path and the lock free, a process that is let be gets the lease. */
  lemma FreshStartsLease(y: System, p: nat)
    requires p < |y.processes| && y.processes[p].Started? && y.lock.None? && y.path.None?
    ensures HasLeased(y, p, Run(y, Undisturbed(p, [Acquire] + LISTENING_STEPS)))
  {
    hide Run;
    Taken(y, p, Acquire, LISTENING_STEPS);
    BindingLeases(Next(y, By(p, Acquire)), p);
  }

  /**
   A file left behind never blocks: with nobody holding a socket and the lock free, a process that is
   let be gets the lease, even if its first attempt is denied rather than told that the path is in use.
   */
  lemma StaleFilesDoNotBlock(y: System, p: nat, denied: bool)
    requires p < |y.processes| && y.processes[p].Started? && y.lock.None? && y.path.Some? && NoSocket(y)
    ensures HasLeased(y, p, Run(y, Undisturbed(p, [Acquire] +
              ([if denied then BindDenied else Bind] + RECOVERING_STEPS))))
  {
    hide Run;
    var first := if denied then BindDenied else Bind;
    var a := Next(y, By(p, Acquire));
    Taken(y, p, Acquire, [first] + RECOVERING_STEPS);
    Taken(a, p, first, RECOVERING_STEPS);
    RecoveringLeases(Next(a, By(p, first)), p);
  }

  /**
   Who runs alone gets the lease. From every reachable state in which nobody else is live, a process
   that starts binds at once if nothing is at the path, and there listens and has the lease; if a
   file was left behind, or its first attempt is denied over one, it finds nobody there, removes the
   file and gets the lease with its second attempt.
   */
  lemma LoneProcessLeases(leftBehind: bool, events: seq<Event>, p: nat, denied: bool)
    requires var y := Run(Boot(leftBehind), events);
             p < |y.processes| && y.processes[p].Started? && NobodyElse(y, p)
    ensures var y := Run(Boot(leftBehind), events);
            && (y.path.None? ==> HasLeased(y, p, Run(y, Undisturbed(p, [Acquire] + LISTENING_STEPS))))
            && (y.path.Some? ==>
                  HasLeased(y, p, Run(y, Undisturbed(p, [Acquire] +
                    ([if denied then BindDenied else Bind] + RECOVERING_STEPS)))))
  {
    hide Run;
    NobodyElseMeansFree(leftBehind, events, p);
    var y := Run(Boot(leftBehind), events);
    if y.path.None? {
      FreshStartsLease(y, p);
    } else {
      StaleFilesDoNotBlock(y, p, denied);
    }
  }

  /** A process whose socket could not be secured at its first attempt recovers in the same way. */
  lemma UnsecuredProcessRecovers(leftBehind: bool, events: seq<Event>, p: nat)
    requires var y := Run(Boot(leftBehind), events);
             p < |y.processes| && y.processes[p].Started? && NobodyElse(y, p) && y.path.None?
    ensures var y := Run(Boot(leftBehind), events);
            HasLeased(y, p, Run(y, Undisturbed(p, [Acquire] + ([Bind] + ([Listen] + ([Secure(false)] +
                                                  RECOVERING_STEPS))))))
  {
    hide Run;
    NobodyElseMeansFree(leftBehind, events, p);
    var y := Run(Boot(leftBehind), events);
    var a := Next(y, By(p, Acquire));
    var b := Next(a, By(p, Bind));
    var c := Next(b, By(p, Listen));
    Taken(y, p, Acquire, [Bind] + ([Listen] + ([Secure(false)] + RECOVERING_STEPS)));
    Taken(a, p, Bind, [Listen] + ([Secure(false)] + RECOVERING_STEPS));
    Taken(b, p, Listen, [Secure(false)] + RECOVERING_STEPS);
    Taken(c, p, Secure(false), RECOVERING_STEPS);
    RecoveringLeases(Next(c, By(p, Secure(false))), p);
  }

  /** Releasing the claim lock keeps the lease and lets the next process claim. */
  lemma ServingFreesTheLock(y: System, p: nat)
    requires p < |y.processes| && y.processes[p].Leased?
    ensures var next := Next(y, By(p, ReleaseLock));
            next.processes[p] == Serving(y.processes[p].socket) && next.lock.None? && next.path == y.path
  {}

  /**
   A second process yields. At every reachable point at which one process serves and the lock is
   free, another that starts ends without a lease, gives the lock back, and leaves the owner, its
   socket and the file at the path as they are.
   */
  lemma SecondProcessYields(leftBehind: bool, events: seq<Event>, p: nat, q: nat, unsure: bool)
    requires var y := Run(Boot(leftBehind), events);
             p < |y.processes| && q < |y.processes| && y.lock.None?
             && y.processes[p].Started? && y.processes[q].Serving?
    ensures var y := Run(Boot(leftBehind), events);
            Run(y, Undisturbed(p, [Acquire] + ([Bind] + ([Probe(unsure)] + [])))) ==
            y.(processes := y.processes[p := Gone])
  {
    RunKeepsInv(Boot(leftBehind), events);
    hide Run;
    var y := Run(Boot(leftBehind), events);
    var a := Next(y, By(p, Acquire));
    var b := Next(a, By(p, Bind));
    assert AnswersAtPath(b, b.processes[q]);
    Taken(y, p, Acquire, [Bind] + ([Probe(unsure)] + []));
    Taken(a, p, Bind, [Probe(unsure)] + []);
    Taken(b, p, Probe(unsure), []);
    NothingRuns(Next(b, By(p, Probe(unsure))), p);
    assert y.processes[p := Creating(false)][p := Contended][p := Gone] == y.processes[p := Gone];
  }

  /** Nor does a process take a path from someone it could not rule out: an uncertain probe ends without a lease. */
  lemma UncertainProcessYields(y: System, p: nat)
    requires Inv(y) && p < |y.processes| && y.processes[p].Contended?
    ensures Next(y, By(p, Probe(true))) == y.(processes := y.processes[p := Gone], lock := None)
  {
    assert HoldsLock(y.processes[p]);
  }
}
