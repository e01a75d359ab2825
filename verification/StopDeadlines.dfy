/** How long stopping the runtime may take, over the reals: the phases of a stop inside the phases of a shutdown. */
module StopDeadlines {

  type Duration = d: real | d >= 0.0

  datatype RuntimeTimeouts = RuntimeTimeouts(gracefulStop: Duration, stopWait: Duration, killWait: Duration)

  const DEFAULT_TIMEOUTS := RuntimeTimeouts(3.0, 3.0, 4.0)

  function Min(a: real, b: real): real {
    if a < b then a else b
  }

  function Capped(t: RuntimeTimeouts): RuntimeTimeouts {
    RuntimeTimeouts(
      Min(t.gracefulStop, DEFAULT_TIMEOUTS.gracefulStop),
      Min(t.stopWait, DEFAULT_TIMEOUTS.stopWait),
      Min(t.killWait, DEFAULT_TIMEOUTS.killWait))
  }

  /** `stop_budget`. */
  function StopBudget(t: RuntimeTimeouts): Duration {
    Capped(t).gracefulStop + Capped(t).stopWait + Capped(t).killWait
  }

  datatype Deadlines = Deadlines(graceful: real, stop: real, kill: real)

  function Available(overall: real, started: real): Duration {
    if overall < started then 0.0 else overall - started
  }

  function Scale(available: Duration, configured: Duration): real {
    if configured == 0.0 then 0.0 else Min(available / configured, 1.0)
  }

  /** `mul_f64`, without its rounding. */
  function Share(d: Duration, scale: real): real {
    d * scale
  }

  /** `RuntimeStopDeadlines::new`, at time `started`. */
  function StopDeadlinesFrom(overall: real, t: RuntimeTimeouts, started: real): Deadlines {
    var capped := Capped(t);
    var scale := Scale(Available(overall, started), StopBudget(t));
    var graceful := Min(overall, started + Share(capped.gracefulStop, scale));
    var stop := Min(overall, graceful + Share(capped.stopWait, scale));
    Deadlines(graceful, stop, Min(overall, stop + Share(capped.killWait, scale)))
  }

  lemma ScaleIsAFraction(available: Duration, configured: Duration)
    ensures 0.0 <= Scale(available, configured) <= 1.0
    ensures Share(configured, Scale(available, configured)) == Min(available, configured)
  {
    if configured != 0.0 {
      var ratio := available / configured;
      assert ratio * configured == available;
      if ratio < 1.0 {
        ScaledDown(ratio, 1.0, configured);
      } else {
        ScaledDown(1.0, ratio, configured);
      }
    }
  }

  lemma ScaledDown(a: real, b: real, d: Duration)
    requires a <= b
    ensures a * d <= b * d
  {}

  lemma ShareIsAPart(d: Duration, scale: real)
    requires 0.0 <= scale <= 1.0
    ensures 0.0 <= Share(d, scale) <= d
  {
    ScaledDown(0.0, scale, d);
    ScaledDown(scale, 1.0, d);
  }

  /**
   The deadlines are in order and within the overall one. While that is not past, the phases sum
   to what is available or configured, whichever is less, each gets its share of it in proportion,
   and none exceeds its configured time or its default.
   */
  lemma PhasesShareTheBudget(overall: real, t: RuntimeTimeouts, started: real)
    ensures var d := StopDeadlinesFrom(overall, t, started);
            d.graceful <= d.stop <= d.kill <= overall
    ensures var d := StopDeadlinesFrom(overall, t, started);
            var capped := Capped(t);
            var scale := Scale(Available(overall, started), StopBudget(t));
            started <= overall ==>
              && d.kill - started == Min(overall - started, StopBudget(t))
              && d.graceful - started == Share(capped.gracefulStop, scale) <= Min(t.gracefulStop, 3.0)
              && d.stop - d.graceful == Share(capped.stopWait, scale) <= Min(t.stopWait, 3.0)
              && d.kill - d.stop == Share(capped.killWait, scale) <= Min(t.killWait, 4.0)
    ensures overall < started ==> StopDeadlinesFrom(overall, t, started) == Deadlines(overall, overall, overall)
  {
    hide Share;
    hide Scale;
    var capped, available := Capped(t), Available(overall, started);
    var scale := Scale(available, StopBudget(t));
    ScaleIsAFraction(available, StopBudget(t));
    ShareIsAPart(capped.gracefulStop, scale);
    ShareIsAPart(capped.stopWait, scale);
    ShareIsAPart(capped.killWait, scale);
    Distributes(capped.gracefulStop, capped.stopWait, capped.killWait, scale);
  }

  lemma Distributes(a: Duration, b: Duration, c: Duration, scale: real)
    ensures Share(a, scale) + Share(b, scale) + Share(c, scale) == Share(a + b + c, scale)
  {}

  // ---------------------------------------------------------------- inside a shutdown

  datatype Limits = Limits(shutdownAccept: Duration, handlerGrace: Duration, shutdownRuntime: Duration,
                           shutdownStorage: Duration)

  const DEFAULT_LIMITS := Limits(2.0, 8.0, 10.0, 5.0)

  /** `ShutdownTimeline`. */
  datatype ShutdownTimeline = ShutdownTimeline(startedAt: real, limits: Limits) {
    function AcceptDeadline(): real {
      startedAt + limits.shutdownAccept
    }

    function HandlerDeadline(): real {
      AcceptDeadline() + limits.handlerGrace
    }

    function PhaseDeadline(phaseStartedAt: real, absolute: real, budget: Duration): real {
      Min(phaseStartedAt + budget, absolute)
    }

    function RuntimeDeadline(phaseStartedAt: real): real {
      PhaseDeadline(phaseStartedAt, HandlerDeadline() + limits.shutdownRuntime, limits.shutdownRuntime)
    }

    function StorageDeadline(phaseStartedAt: real): real {
      PhaseDeadline(phaseStartedAt, HandlerDeadline() + limits.shutdownRuntime + limits.shutdownStorage,
                    limits.shutdownStorage)
    }

    /** No phase of a shutdown ends later than this. */
    function End(): real {
      startedAt + limits.shutdownAccept + limits.handlerGrace + limits.shutdownRuntime + limits.shutdownStorage
    }
  }

  /**
   However late its phases start, every deadline of a shutdown, and every deadline of the runtime
   stop inside it, stays under the sum of its limits; a phase that starts late gets no more than
   its budget, and one that starts in time gets all of it. Accepting and the handlers each get the
   whole of their limit, the handlers from the end of accepting.
   */
  lemma ShutdownIsBounded(s: ShutdownTimeline, runtimeStarts: real, storageStarts: real, t: RuntimeTimeouts,
                          stopStarts: real)
    ensures s.startedAt <= s.AcceptDeadline() <= s.HandlerDeadline() <= s.End()
    ensures s.AcceptDeadline() - s.startedAt == s.limits.shutdownAccept
    ensures s.HandlerDeadline() - s.AcceptDeadline() == s.limits.handlerGrace
    ensures s.RuntimeDeadline(runtimeStarts) <= s.End() - s.limits.shutdownStorage
    ensures s.StorageDeadline(storageStarts) <= s.End()
    ensures s.RuntimeDeadline(runtimeStarts) - runtimeStarts <= s.limits.shutdownRuntime
    ensures s.StorageDeadline(storageStarts) - storageStarts <= s.limits.shutdownStorage
    ensures runtimeStarts <= s.HandlerDeadline() ==>
            s.RuntimeDeadline(runtimeStarts) == runtimeStarts + s.limits.shutdownRuntime
    ensures storageStarts <= s.HandlerDeadline() + s.limits.shutdownRuntime ==>
              s.StorageDeadline(storageStarts) == storageStarts + s.limits.shutdownStorage
    ensures var d := StopDeadlinesFrom(s.RuntimeDeadline(runtimeStarts), t, stopStarts);
            d.graceful <= d.stop <= d.kill <= s.RuntimeDeadline(runtimeStarts) <= s.End()
  {
    PhasesShareTheBudget(s.RuntimeDeadline(runtimeStarts), t, stopStarts);
  }

  /**
   With the default limits accepting ends after two seconds, the handlers after ten and everything
   after twenty-five, and a stop that starts with its phase, in time, gets its whole default budget.
   */
  lemma DefaultStopFits(s: ShutdownTimeline, starts: real)
    requires s.limits == DEFAULT_LIMITS && starts <= s.HandlerDeadline()
    ensures StopDeadlinesFrom(s.RuntimeDeadline(starts), DEFAULT_TIMEOUTS, starts) ==
            Deadlines(starts + 3.0, starts + 6.0, starts + 10.0)
    ensures s.AcceptDeadline() == s.startedAt + 2.0 && s.HandlerDeadline() == s.startedAt + 10.0
    ensures s.End() == s.startedAt + 25.0
  {
    PhasesShareTheBudget(s.RuntimeDeadline(starts), DEFAULT_TIMEOUTS, starts);
    ScaleIsAFraction(10.0, 10.0);
  }
}
