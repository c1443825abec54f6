/** How old an active session can be, and when the recorded duration of a session is its real duration. */
module SessionTimes {
  import opened Common
  import opened Sessions

  /** An active session has survived the last sweep and waits at most one period for the next. */
  const MAX_AGE: real := TIMEOUT_AGE + SWEEP_PERIOD

  /** The clock never goes back, and a sweep comes at least every SWEEP_PERIOD. */
  ghost predicate Punctual(s: State, es: seq<Event>)
    decreases |es|
  {
    es == [] || (s.clock <= es[0].now <= s.lastSweep + SWEEP_PERIOD && Punctual(Step(s, es[0]), es[1..]))
  }

  ghost predicate TimedInv(s: State) {
    && s.lastSweep <= s.clock <= s.lastSweep + SWEEP_PERIOD
    && (forall id | IsActive(s, id) :: s.lastSweep - TIMEOUT_AGE <= s.rows[id].startedAt <= s.clock)
    && (forall request | IsEnding(s, request) ::
          var p := s.pending[request];
          p.readAt - MAX_AGE <= p.seen.startedAt <= p.readAt <= s.clock)
  }

  ghost predicate PendingKnown(s: State) {
    forall request | request in s.pending :: s.pending[request].id in s.rows
  }

  lemma StepKeepsTimedInv(s: State, e: Event)
    requires TimedInv(s) && PendingKnown(s) && s.clock <= e.now <= s.lastSweep + SWEEP_PERIOD
    ensures TimedInv(Step(s, e))
  {
    var next := Step(s, e);
    forall id | IsActive(next, id)
      ensures next.lastSweep - TIMEOUT_AGE <= next.rows[id].startedAt <= next.clock
    {
      if id in s.rows {
        assert IsActive(s, id);
      }
    }
    forall request | IsEnding(next, request)
      ensures var p := next.pending[request];
              p.readAt - MAX_AGE <= p.seen.startedAt <= p.readAt <= next.clock
    {
      if request in s.pending {
        assert IsEnding(s, request);
      } else {
        assert IsActive(s, e.id);
      }
    }
  }

  lemma {:induction false} RunKeepsTimedInv(s: State, es: seq<Event>)
    requires TimedInv(s) && PendingKnown(s) && Punctual(s, es)
    ensures TimedInv(Run(s, es)) && PendingKnown(Run(s, es))
    decreases |es|
  {
    if es == [] {
    } else {
      StepKeepsTimedInv(s, es[0]);
      RunKeepsTimedInv(Step(s, es[0]), es[1..]);
    }
  }

  /** With punctual sweeps no session is active for more than three hours. */
  lemma ActiveAtMostThreeHours(es: seq<Event>, id: int)
    requires Punctual(START, es) && IsActive(Run(START, es), id)
    ensures var s := Run(START, es);
            0.0 <= s.clock - s.rows[id].startedAt <= 10800.0
  {
    RunKeepsTimedInv(START, es);
  }

  /** The recorded duration is the elapsed time in whole seconds exactly for sessions shorter than a day. */
  lemma DurationExactIff(elapsed: real)
    requires elapsed >= 0.0
    ensures SecondsField(elapsed) == elapsed.Floor <==> elapsed < 86400.0
    ensures exists days: nat :: elapsed.Floor == SecondsField(elapsed) + days * 86400
  {
    var days: nat := elapsed.Floor / SECONDS_PER_DAY;
    assert elapsed.Floor == SecondsField(elapsed) + days * 86400;
  }

  /**
   With punctual sweeps, an end that is saved within 21 hours of reading the row records the true number of
   seconds from the start of the session to its end.
   */
  lemma RecordedDurationExact(es: seq<Event>, request: int, now: real)
    requires Punctual(START, es) && IsEnding(Run(START, es), request)
    requires Run(START, es).pending[request].readAt <= now < Run(START, es).pending[request].readAt + 75600.0
    ensures var s := Run(START, es);
            var id := s.pending[request].id;
            var ended := Step(s, EndSave(request, now)).rows[id];
            ended.status == Completed && ended.endedAt == Some(now)
            && ended.duration == (now - s.rows[id].startedAt).Floor
  {
    RunKeepsTimedInv(START, es);
    RunKeepsInv(START, es);
    EndRecordsDuration(Run(START, es), request, now);
  }

  lemma EndRecordsDuration(s: State, request: int, now: real)
    requires Inv(s) && TimedInv(s) && IsEnding(s, request)
    requires s.pending[request].readAt <= now < s.pending[request].readAt + 75600.0
    ensures var id := s.pending[request].id;
            var ended := Step(s, EndSave(request, now)).rows[id];
            ended.status == Completed && ended.endedAt == Some(now)
            && ended.duration == (now - s.rows[id].startedAt).Floor
  {
    var p := s.pending[request];
    assert PendingOk(s, p);
    DurationExactIff(now - p.seen.startedAt);
  }
}
