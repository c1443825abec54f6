/**
 Which runs lose a turn. A turn is lost when a save writes a row back that was read before another turn of the
 same session was saved; whether that happens can be read off the events, without looking at any column.
 */
module SessionLosses {
  import opened Sessions

  /** The state before the k-th event of a run. */
  function StateAt(es: seq<Event>, k: nat): State
    requires k <= |es|
  {
    if k == 0 then START else Step(StateAt(es, k - 1), es[k - 1])
  }

  /** In state s, event e saves a turn of this session. */
  predicate StepSaves(s: State, e: Event, id: int) {
    e.TurnSave? && IsTurning(s, e.request) && s.pending[e.request].id == id
  }

  /** The k-th event of a run does so. */
  predicate SavesTurn(es: seq<Event>, k: nat, id: int) {
    k < |es| && StepSaves(StateAt(es, k), es[k], id)
  }

  /** The i-th event is the read of a turn that is still going on before the k-th. */
  predicate ReadsFor(es: seq<Event>, i: nat, k: nat, request: int) {
    && i < k <= |es| && es[i].TurnRead? && es[i].request == request
    && request !in StateAt(es, i).pending
    && forall j | i < j <= k :: request in StateAt(es, j).pending
  }

  /** Another turn of the session is saved between the k-th event and the read that belongs to it. */
  ghost predicate Overtaken(es: seq<Event>, k: nat, id: int)
    requires k < |es| && es[k].TurnSave?
  {
    exists i: nat, j: nat :: i < j < k && ReadsFor(es, i, k, es[k].request) && SavesTurn(es, j, id)
  }

  /** The k-th event saves a turn of the session and writes an older row over another. */
  ghost predicate SavesOver(es: seq<Event>, k: nat, id: int) {
    SavesTurn(es, k, id) && Overtaken(es, k, id)
  }

  /** None of the first n events does so. */
  ghost predicate NoneOvertaken(es: seq<Event>, n: nat, id: int) {
    n == 0 || (NoneOvertaken(es, n - 1, id) && !SavesOver(es, n - 1, id))
  }

  lemma {:induction false} NoneOvertakenIff(es: seq<Event>, n: nat, id: int)
    ensures NoneOvertaken(es, n, id) <==> forall k: nat | k < n :: !SavesOver(es, k, id)
    decreases n
  {
    if n == 0 {
    } else {
      NoneOvertakenIff(es, n - 1, id);
    }
  }

  // ---------------------------------------------------------------------------------------------
  // Runs, event by event.

  lemma {:induction false} StateAtIsRun(es: seq<Event>, k: nat)
    requires k <= |es|
    ensures Run(StateAt(es, k), es[k..]) == Run(START, es)
    decreases k
  {
    if k == 0 {
      assert es[0..] == es;
    } else {
      StateAtIsRun(es, k - 1);
      assert es[k - 1..][1..] == es[k..];
    }
  }

  lemma {:induction false} StateAtKeepsInv(es: seq<Event>, k: nat)
    requires k <= |es|
    ensures Inv(StateAt(es, k))
    decreases k
  {
    if k == 0 {
    } else {
      StateAtKeepsInv(es, k - 1);
      StepKeepsInv(StateAt(es, k - 1), es[k - 1]);
    }
  }

  lemma StepColumns(s: State, e: Event, id: int)
    requires id in s.rows
    ensures var t := Step(s, e);
            && id in t.rows
            && (StepSaves(s, e, id) ==>
                  && |t.rows[id].transcript| == |s.pending[e.request].seen.transcript| + 2
                  && |LogOf(t, id)| == |LogOf(s, id)| + 1)
            && (!StepSaves(s, e, id) ==> t.rows[id].transcript == s.rows[id].transcript && LogOf(t, id) == LogOf(s, id))
  {
  }

  /** Only a saved turn of the session moves its transcript and its log. */
  lemma ColumnsAfter(es: seq<Event>, k: nat, id: int)
    requires k < |es| && id in StateAt(es, k).rows
    ensures var s, t := StateAt(es, k), StateAt(es, k + 1);
            && id in t.rows
            && (SavesTurn(es, k, id) ==>
                  && |t.rows[id].transcript| == |s.pending[es[k].request].seen.transcript| + 2
                  && |LogOf(t, id)| == |LogOf(s, id)| + 1)
            && (!SavesTurn(es, k, id) ==> t.rows[id].transcript == s.rows[id].transcript && LogOf(t, id) == LogOf(s, id))
  {
    StepColumns(StateAt(es, k), es[k], id);
  }

  lemma {:induction false} ColumnsSince(es: seq<Event>, i: nat, k: nat, id: int)
    requires i <= k <= |es| && id in StateAt(es, i).rows
    ensures id in StateAt(es, k).rows
    ensures |LogOf(StateAt(es, i), id)| <= |LogOf(StateAt(es, k), id)|
    ensures (exists j :: i <= j < k && SavesTurn(es, j, id)) ==>
              |LogOf(StateAt(es, i), id)| < |LogOf(StateAt(es, k), id)|
    ensures !(exists j :: i <= j < k && SavesTurn(es, j, id)) ==>
              && LogOf(StateAt(es, k), id) == LogOf(StateAt(es, i), id)
              && StateAt(es, k).rows[id].transcript == StateAt(es, i).rows[id].transcript
    decreases k
  {
    if i == k {
    } else {
      ColumnsSince(es, i, k - 1, id);
      ColumnsAfter(es, k - 1, id);
    }
  }

  // ---------------------------------------------------------------------------------------------
  // Every pending turn has its read, and holds what was stored then.

  lemma PendingAfter(s: State, e: Event, request: int)
    requires request in Step(s, e).pending && Step(s, e).pending[request].Turning?
    ensures if request in s.pending then Step(s, e).pending[request] == s.pending[request]
            else e.TurnRead? && e.request == request && IsActive(s, e.id)
                 && Step(s, e).pending[request] == Turning(e.id, s.rows[e.id])
  {
  }

  lemma ReadPends(s: State, e: Event)
    requires e.TurnRead? && e.request !in s.pending && e.request in Step(s, e).pending
    ensures e.id in s.rows && Step(s, e).pending[e.request] == Turning(e.id, s.rows[e.id])
  {
  }

  lemma {:induction false} PendingSinceRead(es: seq<Event>, i: nat, k: nat, request: int)
    requires ReadsFor(es, i, k, request)
    ensures es[i].id in StateAt(es, i).rows
    ensures StateAt(es, k).pending[request] == Turning(es[i].id, StateAt(es, i).rows[es[i].id])
    decreases k
  {
    assert request in StateAt(es, k).pending;
    if k == i + 1 {
      ReadPends(StateAt(es, i), es[i]);
    } else {
      assert ReadsFor(es, i, k - 1, request);
      PendingSinceRead(es, i, k - 1, request);
      PendingStays(StateAt(es, k - 1), es[k - 1], request);
    }
  }

  lemma PendingStays(s: State, e: Event, request: int)
    requires request in s.pending && request in Step(s, e).pending
    ensures Step(s, e).pending[request] == s.pending[request]
  {
  }

  lemma {:induction false} ReadExists(es: seq<Event>, k: nat, request: int) returns (i: nat)
    requires k <= |es| && request in StateAt(es, k).pending && StateAt(es, k).pending[request].Turning?
    ensures ReadsFor(es, i, k, request)
    decreases k
  {
    if k == 0 {
      assert false;
    } else {
      PendingAfter(StateAt(es, k - 1), es[k - 1], request);
      if request in StateAt(es, k - 1).pending {
        i := ReadExists(es, k - 1, request);
      } else {
        i := k - 1;
      }
    }
  }

  lemma {:induction false} ReadUnique(es: seq<Event>, i: nat, j: nat, k: nat, request: int)
    requires ReadsFor(es, i, k, request) && ReadsFor(es, j, k, request)
    ensures i == j
  {
  }

  // ---------------------------------------------------------------------------------------------
  // Nothing lost.

  lemma {:induction false} PositionsInRange(idx: seq<nat>, log: seq<Turn>, i: nat)
    requires Positions(idx, log) && i < |idx|
    ensures i <= idx[i] && idx[i] + |idx| <= |log| + i
    decreases |idx| - i
  {
    PositionsAbove(idx, log, i);
    PositionsBelow(idx, log, i);
  }

  lemma {:induction false} PositionsAbove(idx: seq<nat>, log: seq<Turn>, i: nat)
    requires Positions(idx, log) && i < |idx|
    ensures i <= idx[i]
    decreases i
  {
    if i == 0 {
    } else {
      PositionsAbove(idx, log, i - 1);
    }
  }

  lemma {:induction false} PositionsBelow(idx: seq<nat>, log: seq<Turn>, i: nat)
    requires Positions(idx, log) && i < |idx|
    ensures idx[i] + |idx| <= |log| + i
    decreases |idx| - i
  {
    if i == |idx| - 1 {
    } else {
      PositionsBelow(idx, log, i + 1);
    }
  }

  /** A row never shows more than the saved turns, and if it shows as many, then these and all that they cost. */
  lemma AccountedAtMost(r: Row, log: seq<Turn>)
    requires Accounted(r, log)
    ensures |r.transcript| <= 2 * |log|
    ensures |r.transcript| == 2 * |log| ==> HoldsAll(r, log)
  {
    var idx: seq<nat> :| Holds(r, log, idx);
    TranscriptTells(Picked(idx, log));
    if idx != [] {
      PositionsInRange(idx, log, 0);
    }
    if |idx| == |log| {
      forall i | 0 <= i < |log|
        ensures Picked(idx, log)[i] == log[i]
      {
        PositionsInRange(idx, log, i);
      }
      assert Picked(idx, log) == log;
    }
  }

  /** The three columns hold every turn that was ever saved. */
  ghost predicate HoldsAll(r: Row, log: seq<Turn>) {
    Tells(r.transcript, log) && r.tokens == TokensOf(log) && r.ttsChars == TtsCharsOf(log)
  }

  ghost predicate Complete(s: State, id: int) {
    id in s.rows ==> |s.rows[id].transcript| == 2 * |LogOf(s, id)|
  }

  /** A save that was not overtaken keeps a complete row complete; one that was leaves the row incomplete. */
  lemma CompleteAfterSave(es: seq<Event>, k: nat, id: int)
    requires SavesTurn(es, k, id)
    ensures Complete(StateAt(es, k + 1), id) <==> Complete(StateAt(es, k), id) && !Overtaken(es, k, id)
  {
    var i := ReadExists(es, k, es[k].request);
    PendingSinceRead(es, i, k, es[k].request);
    ColumnsAfter(es, k, id);
    StateAtKeepsInv(es, i);
    AccountedAtMost(StateAt(es, i).rows[id], LogOf(StateAt(es, i), id));
    ColumnsSince(es, i, k, id);
    assert !SavesTurn(es, i, id);
    if Overtaken(es, k, id) {
      var i': nat, j: nat :| i' < j < k && ReadsFor(es, i', k, es[k].request) && SavesTurn(es, j, id);
      ReadUnique(es, i, i', k, es[k].request);
      assert i <= j < k && SavesTurn(es, j, id);
    }
  }

  lemma CompleteAfterOther(es: seq<Event>, k: nat, id: int)
    requires k < |es| && !SavesTurn(es, k, id)
    ensures Complete(StateAt(es, k + 1), id) <==> Complete(StateAt(es, k), id)
  {
    if id in StateAt(es, k).rows {
      ColumnsAfter(es, k, id);
    } else {
      NewRowIsComplete(es, k + 1, id);
    }
  }

  lemma CompleteStep(es: seq<Event>, k: nat, id: int)
    requires k < |es|
    ensures Complete(StateAt(es, k + 1), id)
            <==> Complete(StateAt(es, k), id) && !SavesOver(es, k, id)
  {
    if SavesTurn(es, k, id) {
      CompleteAfterSave(es, k, id);
    } else {
      CompleteAfterOther(es, k, id);
    }
  }

  lemma {:induction false} CompleteIff(es: seq<Event>, n: nat, id: int)
    requires n <= |es|
    ensures Complete(StateAt(es, n), id) <==> NoneOvertaken(es, n, id)
    decreases n
  {
    if n == 0 {
    } else {
      CompleteIff(es, n - 1, id);
      CompleteStep(es, n - 1, id);
    }
  }

  /** A session that is not there yet, or has just been created, has lost nothing. */
  lemma NewRowIsComplete(es: seq<Event>, n: nat, id: int)
    requires 0 < n <= |es| && id !in StateAt(es, n - 1).rows
    ensures Complete(StateAt(es, n), id)
  {
    if id in StateAt(es, n).rows {
      assert es[n - 1].Create? && es[n - 1].id == id;
    }
  }

  /**
   In every run, a stored session holds every turn that was ever saved, with all it cost, exactly when no save of
   a turn on it had another one between its own read and itself. What is lost once stays lost.
   */
  lemma NothingLostIff(es: seq<Event>, id: int)
    requires id in Run(START, es).rows
    ensures var s := Run(START, es);
            && (HoldsAll(s.rows[id], LogOf(s, id)) <==> forall k: nat | k < |es| :: !SavesOver(es, k, id))
            && (|s.rows[id].transcript| == 2 * |LogOf(s, id)| <==> HoldsAll(s.rows[id], LogOf(s, id)))
  {
    StateAtIsRun(es, |es|);
    var s := Run(START, es);
    CompleteIff(es, |es|, id);
    NoneOvertakenIff(es, |es|, id);
    RunKeepsInv(START, es);
    AccountedAtMost(s.rows[id], LogOf(s, id));
  }
}
