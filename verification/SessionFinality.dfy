/** When a session that has left ACTIVE is done with: what is still in flight decides which columns can move. */
module SessionFinality {
  import opened Common
  import opened Sessions

  ghost predicate NoTurnOn(s: State, id: int) {
    forall r | r in s.pending && s.pending[r].Turning? :: s.pending[r].id != id
  }

  ghost predicate NoEndOn(s: State, id: int) {
    forall r | r in s.pending && s.pending[r].Ending? :: s.pending[r].id != id
  }

  /** A session that is not active gets no new turn and no new end. */
  lemma SettledPending(s: State, e: Event, id: int)
    requires id in s.rows && s.rows[id].status != Active
    ensures NoTurnOn(s, id) ==> NoTurnOn(Step(s, e), id)
    ensures NoEndOn(s, id) ==> NoEndOn(Step(s, e), id)
  {
  }

  lemma SettledRow(s: State, e: Event, id: int)
    requires id in s.rows && s.rows[id].status != Active
    ensures var rows := Step(s, e).rows;
            && id in rows
            && (rows[id].status == s.rows[id].status
                || (rows[id].status == Failed && !NoTurnOn(s, id))
                || (rows[id].status == Completed && !NoEndOn(s, id)))
            && (rows[id].endedAt == s.rows[id].endedAt || !NoEndOn(s, id))
  {
  }

  lemma {:induction false} SettledRun(s: State, es: seq<Event>, id: int)
    requires id in s.rows && s.rows[id].status != Active
    ensures var before, after := s.rows[id], Run(s, es).rows;
            && id in after
            && (NoTurnOn(s, id) && (before.status == Completed || NoEndOn(s, id)) ==> after[id].status == before.status)
            && (NoEndOn(s, id) && (before.status == Failed || NoTurnOn(s, id)) ==> after[id].status == before.status)
            && (NoEndOn(s, id) ==> after[id].endedAt == before.endedAt)
    decreases |es|
  {
    if es == [] {
    } else {
      SettledPending(s, es[0], id);
      SettledRow(s, es[0], id);
      SettledRun(Step(s, es[0]), es[1..], id);
    }
  }

  /** What one more event, of a request that is in flight, does. */
  lemma TurnInFlightCanFail(s: State, id: int) returns (es: seq<Event>)
    requires id in s.rows && !NoTurnOn(s, id)
    ensures id in Run(s, es).rows && Run(s, es).rows[id].status == Failed
  {
    var r :| r in s.pending && s.pending[r].Turning? && s.pending[r].id == id;
    es := [TurnFail(r, s.clock)];
    assert Run(Step(s, es[0]), es[1..]) == Step(s, es[0]);
  }

  lemma EndInFlightCanSave(s: State, id: int, now: real) returns (es: seq<Event>)
    requires id in s.rows && !NoEndOn(s, id)
    ensures id in Run(s, es).rows && Run(s, es).rows[id].status == Completed && Run(s, es).rows[id].endedAt == Some(now)
  {
    var r :| r in s.pending && s.pending[r].Ending? && s.pending[r].id == id;
    es := [EndSave(r, now)];
    assert Run(Step(s, es[0]), es[1..]) == Step(s, es[0]);
  }

  /** The session keeps this status whatever comes. */
  ghost predicate StatusFinal(s: State, id: int)
    requires id in s.rows
  {
    forall es :: id in Run(s, es).rows && Run(s, es).rows[id].status == s.rows[id].status
  }

  /** COMPLETED is final exactly when no turn is in flight on the session. */
  lemma CompletedFinalIff(s: State, id: int)
    requires id in s.rows && s.rows[id].status == Completed
    ensures StatusFinal(s, id) <==> forall r | r in s.pending && s.pending[r].Turning? :: s.pending[r].id != id
  {
    if NoTurnOn(s, id) {
      forall es
        ensures id in Run(s, es).rows && Run(s, es).rows[id].status == Completed
      {
        SettledRun(s, es, id);
      }
    } else {
      var es := TurnInFlightCanFail(s, id);
    }
  }

  /** FAILED is final exactly when no end is in flight. */
  lemma FailedFinalIff(s: State, id: int)
    requires id in s.rows && s.rows[id].status == Failed
    ensures StatusFinal(s, id) <==> forall r | r in s.pending && s.pending[r].Ending? :: s.pending[r].id != id
  {
    if NoEndOn(s, id) {
      forall es
        ensures id in Run(s, es).rows && Run(s, es).rows[id].status == Failed
      {
        SettledRun(s, es, id);
      }
    } else {
      var es := EndInFlightCanSave(s, id, s.clock);
    }
  }

  /** TIMEOUT is final exactly when nothing is in flight. */
  lemma TimedOutFinalIff(s: State, id: int)
    requires id in s.rows && s.rows[id].status == TimedOut
    ensures StatusFinal(s, id) <==> forall r | r in s.pending :: s.pending[r].id != id
  {
    if forall r | r in s.pending :: s.pending[r].id != id {
      forall es
        ensures id in Run(s, es).rows && Run(s, es).rows[id].status == TimedOut
      {
        SettledRun(s, es, id);
      }
    } else if !NoTurnOn(s, id) {
      var es := TurnInFlightCanFail(s, id);
    } else {
      var es := EndInFlightCanSave(s, id, s.clock);
    }
  }

  /** An end time, however it came, is final exactly when no end is in flight. */
  lemma EndTimeFinalIff(s: State, id: int)
    requires Inv(s) && id in s.rows && s.rows[id].endedAt.Some?
    ensures (forall es :: id in Run(s, es).rows && Run(s, es).rows[id].endedAt == s.rows[id].endedAt)
            <==> forall r | r in s.pending && s.pending[r].Ending? :: s.pending[r].id != id
  {
    assert RowOk(s.rows[id]);
    if NoEndOn(s, id) {
      forall es
        ensures id in Run(s, es).rows && Run(s, es).rows[id].endedAt == s.rows[id].endedAt
      {
        SettledRun(s, es, id);
      }
    } else {
      var es := EndInFlightCanSave(s, id, s.rows[id].endedAt.value + 1.0);
    }
  }
}
