/**
 Voice sessions as rows of one table, and the requests that change them.

 A turn reads the row, makes a long call and writes three columns back from what it read; an end reads the
 row and writes three other columns; the sweep is one update of the whole table. Steps of different
 requests interleave freely. `log` is history: every turn that was ever saved, lost or not.
 */
module Sessions {
  import opened Common
  import opened Conversation

  const TIMEOUT_AGE: real := 7200.0
  const SWEEP_PERIOD: real := 3600.0
  const SECONDS_PER_DAY := 86400

  datatype SessionStatus = Active | Completed | Failed | TimedOut

  datatype Entry = Entry(role: Role, content: string, at: real)

  datatype Row = Row(
    status: SessionStatus,
    startedAt: real,
    endedAt: Option<real>,
    duration: nat,
    transcript: seq<Entry>,
    tokens: nat,
    ttsChars: nat)

  function NewRow(now: real): Row {
    Row(Active, now, None, 0, [], 0, 0)
  }

  /** The result of one turn: what is added to the transcript and to the two counters. */
  datatype Turn = Turn(user: string, reply: string, tokens: nat, ttsChars: nat, at: real)

  function EntriesOf(t: Turn): seq<Entry> {
    [Entry(User, t.user, t.at), Entry(Assistant, t.reply, t.at)]
  }

  /** (end - start).seconds of a time difference: whole seconds without whole days. */
  function SecondsField(elapsed: real): nat {
    elapsed.Floor % SECONDS_PER_DAY
  }

  // The column writes.

  /** save(update_fields=["transcript", "tokens_used", "tts_characters"]) of the row as the turn read it. */
  function SaveTurn(stored: Row, seen: Row, t: Turn): Row {
    stored.(transcript := seen.transcript + EntriesOf(t),
            tokens := seen.tokens + t.tokens,
            ttsChars := seen.ttsChars + t.ttsChars)
  }

  /** save(update_fields=["status"]) */
  function SaveFailed(stored: Row): Row {
    stored.(status := Failed)
  }

  /** save(update_fields=["status", "ended_at", "duration_seconds"]) */
  function SaveEnd(stored: Row, seen: Row, now: real): Row {
    stored.(status := Completed, endedAt := Some(now), duration := SecondsField(now - seen.startedAt))
  }

  /** cleanup_expired_sessions on one row. */
  function SweepRow(r: Row, now: real): Row {
    if r.status == Active && r.startedAt < now - TIMEOUT_AGE then r.(status := TimedOut, endedAt := Some(now)) else r
  }

  function SweepRows(rows: map<int, Row>, now: real): (swept: map<int, Row>)
    ensures swept.Keys == rows.Keys
  {
    map id | id in rows :: SweepRow(rows[id], now)
  }

  /** A request between its read and its write. */
  datatype Pending =
    | Turning(id: int, seen: Row)
    | Ending(id: int, seen: Row, readAt: real)

  datatype State = State(
    rows: map<int, Row>,
    pending: map<int, Pending>,
    log: map<int, seq<Turn>>,
    clock: real,
    lastSweep: real)

  const START := State(map[], map[], map[], 0.0, 0.0)

  datatype Event =
    | Create(id: int, now: real)
    | TurnRead(request: int, id: int, now: real)
    | TurnSave(request: int, user: string, reply: string, tokens: nat, ttsChars: nat, now: real)
    | TurnFail(request: int, now: real)
    | EndRead(request: int, id: int, now: real)
    | EndSave(request: int, now: real)
    | Sweep(now: real)

  predicate IsActive(s: State, id: int) {
    id in s.rows && s.rows[id].status == Active
  }

  predicate IsTurning(s: State, request: int) {
    request in s.pending && s.pending[request].Turning? && s.pending[request].id in s.rows
  }

  predicate IsEnding(s: State, request: int) {
    request in s.pending && s.pending[request].Ending? && s.pending[request].id in s.rows
  }

  function LogOf(s: State, id: int): seq<Turn> {
    if id in s.log then s.log[id] else []
  }

  /** An event that is not possible, and a request that the view refuses, changes nothing but the clock. */
  function Step(s0: State, e: Event): State {
    var s := s0.(clock := e.now);
    match e
    case Create(id, now) =>
      if id in s.rows then s else s.(rows := s.rows[id := NewRow(now)], log := s.log[id := []])
    case TurnRead(request, id, now) =>
      if !IsActive(s, id) || request in s.pending then s
      else s.(pending := s.pending[request := Turning(id, s.rows[id])])
    case TurnSave(request, user, reply, tokens, ttsChars, now) =>
      if !IsTurning(s, request) then s
      else
        var id, t := s.pending[request].id, Turn(user, reply, tokens, ttsChars, now);
        s.(rows := s.rows[id := SaveTurn(s.rows[id], s.pending[request].seen, t)],
           pending := s.pending - {request},
           log := s.log[id := LogOf(s, id) + [t]])
    case TurnFail(request, now) =>
      if !IsTurning(s, request) then s
      else
        var id := s.pending[request].id;
        s.(rows := s.rows[id := SaveFailed(s.rows[id])], pending := s.pending - {request})
    case EndRead(request, id, now) =>
      if !IsActive(s, id) || request in s.pending then s
      else s.(pending := s.pending[request := Ending(id, s.rows[id], now)])
    case EndSave(request, now) =>
      if !IsEnding(s, request) then s
      else
        var id := s.pending[request].id;
        s.(rows := s.rows[id := SaveEnd(s.rows[id], s.pending[request].seen, now)], pending := s.pending - {request})
    case Sweep(now) =>
      s.(rows := SweepRows(s.rows, now), lastSweep := now)
  }

  function Run(s: State, es: seq<Event>): State
    decreases |es|
  {
    if es == [] then s else Run(Step(s, es[0]), es[1..])
  }

  // ---------------------------------------------------------------------------------------------
  // Which turns a row accounts for.

  function TranscriptOf(ts: seq<Turn>): seq<Entry> {
    if ts == [] then [] else TranscriptOf(ts[..|ts| - 1]) + EntriesOf(ts[|ts| - 1])
  }

  function TokensOf(ts: seq<Turn>): nat {
    if ts == [] then 0 else TokensOf(ts[..|ts| - 1]) + ts[|ts| - 1].tokens
  }

  function TtsCharsOf(ts: seq<Turn>): nat {
    if ts == [] then 0 else TtsCharsOf(ts[..|ts| - 1]) + ts[|ts| - 1].ttsChars
  }

  /** Strictly increasing positions in a log. */
  ghost predicate Positions(idx: seq<nat>, log: seq<Turn>) {
    && (forall i | 0 <= i < |idx| :: idx[i] < |log|)
    && (forall i, j | 0 <= i < j < |idx| :: idx[i] < idx[j])
  }

  ghost function Picked(idx: seq<nat>, log: seq<Turn>): seq<Turn>
    requires Positions(idx, log)
  {
    seq(|idx|, i requires 0 <= i < |idx| => log[idx[i]])
  }

  /** The three columns hold exactly the turns at these positions of the log, in that order. */
  ghost predicate Holds(r: Row, log: seq<Turn>, idx: seq<nat>) {
    && Positions(idx, log)
    && r.transcript == TranscriptOf(Picked(idx, log))
    && r.tokens == TokensOf(Picked(idx, log))
    && r.ttsChars == TtsCharsOf(Picked(idx, log))
  }

  ghost predicate Accounted(r: Row, log: seq<Turn>) {
    exists idx: seq<nat> :: Holds(r, log, idx)
  }

  lemma AccountedInLongerLog(r: Row, log: seq<Turn>, t: Turn)
    requires Accounted(r, log)
    ensures Accounted(r, log + [t])
  {
    var idx: seq<nat> :| Holds(r, log, idx);
    assert Picked(idx, log + [t]) == Picked(idx, log);
    assert Holds(r, log + [t], idx);
  }

  lemma SameColumnsAccounted(r: Row, changed: Row, log: seq<Turn>)
    requires Accounted(r, log)
    requires changed.transcript == r.transcript && changed.tokens == r.tokens && changed.ttsChars == r.ttsChars
    ensures Accounted(changed, log)
  {
    var idx: seq<nat> :| Holds(r, log, idx);
    assert Holds(changed, log, idx);
  }

  lemma SavedTurnAccounted(stored: Row, seen: Row, log: seq<Turn>, t: Turn)
    requires Accounted(seen, log)
    ensures Accounted(SaveTurn(stored, seen, t), log + [t])
  {
    var idx: seq<nat> :| Holds(seen, log, idx);
    var longer: seq<nat> := idx + [|log|];
    var turns := Picked(longer, log + [t]);
    assert turns[..|turns| - 1] == Picked(idx, log) && turns[|turns| - 1] == t;
    assert Holds(SaveTurn(stored, seen, t), log + [t], longer);
  }

  // ---------------------------------------------------------------------------------------------
  // The invariant, over every interleaving.

  ghost predicate RowOk(r: Row) {
    && (r.status == Completed || r.status == TimedOut ==> r.endedAt.Some?)
    && (r.endedAt.Some? ==> r.status != Active)
    && (r.status == TimedOut ==> r.endedAt.value - r.startedAt > TIMEOUT_AGE)
  }

  ghost predicate PendingOk(s: State, p: Pending) {
    && p.id in s.rows
    && p.seen.status == Active
    && p.seen.startedAt == s.rows[p.id].startedAt
    && (p.Turning? ==> Accounted(p.seen, LogOf(s, p.id)))
  }

  ghost predicate Inv(s: State) {
    && (forall id | id in s.rows :: RowOk(s.rows[id]) && Accounted(s.rows[id], LogOf(s, id)))
    && (forall request | request in s.pending :: PendingOk(s, s.pending[request]))
  }

  /** Except for a new row and a saved turn, a step leaves the three columns and the logs alone. */
  lemma OtherStepOnRow(s: State, e: Event, id: int)
    requires !e.Create? && !e.TurnSave? && id in s.rows && RowOk(s.rows[id])
    ensures id in Step(s, e).rows && LogOf(Step(s, e), id) == LogOf(s, id)
    ensures var before, after := s.rows[id], Step(s, e).rows[id];
            && RowOk(after)
            && after.transcript == before.transcript && after.tokens == before.tokens && after.ttsChars == before.ttsChars
            && after.startedAt == before.startedAt
  {
  }

  lemma OtherStepKeepsRows(s: State, e: Event)
    requires !e.Create? && !e.TurnSave?
    ensures Step(s, e).rows.Keys == s.rows.Keys
  {
  }

  lemma OtherStepKeepsInv(s: State, e: Event)
    requires Inv(s) && !e.Create? && !e.TurnSave?
    ensures Inv(Step(s, e))
  {
    var next := Step(s, e);
    OtherStepKeepsRows(s, e);
    forall id | id in next.rows
      ensures RowOk(next.rows[id]) && Accounted(next.rows[id], LogOf(next, id))
    {
      OtherStepOnRow(s, e, id);
      SameColumnsAccounted(s.rows[id], next.rows[id], LogOf(s, id));
    }
    forall request | request in next.pending
      ensures PendingOk(next, next.pending[request])
    {
      OtherStepOnPending(s, e, request);
    }
  }

  lemma OtherStepOnPending(s: State, e: Event, request: int)
    requires Inv(s) && !e.Create? && !e.TurnSave? && request in Step(s, e).pending
    ensures PendingOk(Step(s, e), Step(s, e).pending[request])
  {
    var p := Step(s, e).pending[request];
    if request in s.pending {
      assert PendingOk(s, p);
    } else {
      assert RowOk(s.rows[p.id]) && Accounted(s.rows[p.id], LogOf(s, p.id));
    }
    OtherStepOnRow(s, e, p.id);
  }

  lemma CreateKeepsInv(s: State, e: Event)
    requires Inv(s) && e.Create?
    ensures Inv(Step(s, e))
  {
    assert Holds(NewRow(e.now), [], []);
    var next := Step(s, e);
    forall request | request in next.pending
      ensures PendingOk(next, next.pending[request])
    {
      assert PendingOk(s, s.pending[request]);
    }
  }

  lemma StepKeepsInv(s: State, e: Event)
    requires Inv(s)
    ensures Inv(Step(s, e))
  {
    if e.Create? {
      CreateKeepsInv(s, e);
    } else if !e.TurnSave? {
      OtherStepKeepsInv(s, e);
    } else if IsTurning(s, e.request) {
      TurnSaveKeepsInv(s, e);
    } else {
      IdleStepKeepsInv(s, e.now);
    }
  }

  lemma IdleStepKeepsInv(s: State, now: real)
    requires Inv(s)
    ensures Inv(s.(clock := now))
  {
    var next := s.(clock := now);
    forall request | request in next.pending
      ensures PendingOk(next, next.pending[request])
    {
      assert PendingOk(s, s.pending[request]);
    }
  }

  lemma TurnSaveKeepsInv(s: State, e: Event)
    requires Inv(s) && e.TurnSave? && IsTurning(s, e.request)
    ensures Inv(Step(s, e))
  {
    var p := s.pending[e.request];
    var t := Turn(e.user, e.reply, e.tokens, e.ttsChars, e.now);
    var next := Step(s, e);
    SavedTurnAccounted(s.rows[p.id], p.seen, LogOf(s, p.id), t);
    forall request | request in next.pending
      ensures PendingOk(next, next.pending[request])
    {
      var other := s.pending[request];
      assert PendingOk(s, other);
      if other.Turning? && other.id == p.id {
        AccountedInLongerLog(other.seen, LogOf(s, p.id), t);
      }
    }
  }

  lemma {:induction false} RunKeepsInv(s: State, es: seq<Event>)
    requires Inv(s)
    ensures Inv(Run(s, es))
    decreases |es|
  {
    if es == [] {
    } else {
      StepKeepsInv(s, es[0]);
      RunKeepsInv(Step(s, es[0]), es[1..]);
    }
  }

  /** What a transcript of these turns says, two entries for each. */
  ghost predicate Tells(transcript: seq<Entry>, turns: seq<Turn>) {
    && |transcript| == 2 * |turns|
    && forall k | 0 <= k < |turns| ::
         && transcript[2 * k] == Entry(User, turns[k].user, turns[k].at)
         && transcript[2 * k + 1] == Entry(Assistant, turns[k].reply, turns[k].at)
  }

  lemma {:induction false} TranscriptTells(ts: seq<Turn>)
    ensures Tells(TranscriptOf(ts), ts)
    decreases |ts|
  {
    if ts == [] {
    } else {
      var before, last := ts[..|ts| - 1], ts[|ts| - 1];
      TranscriptTells(before);
      forall k | 0 <= k < |ts|
        ensures TranscriptOf(ts)[2 * k] == Entry(User, ts[k].user, ts[k].at)
        ensures TranscriptOf(ts)[2 * k + 1] == Entry(Assistant, ts[k].reply, ts[k].at)
      {
        if k < |before| {
          assert before[k] == ts[k];
        }
      }
    }
  }

  /**
   Snapshot consistency. However turns, ends and sweeps interleave, and whatever updates are lost, every
   stored row counts exactly the tokens and characters of the turns its transcript shows, each of them a
   turn that was saved, none of them twice, in the order in which they were saved. For each it shows what the user
   said and then what the assistant replied, both with the time of the save.
   */
  lemma SnapshotConsistency(es: seq<Event>, id: int)
    requires id in Run(START, es).rows
    ensures var s := Run(START, es);
            exists idx: seq<nat> ::
              && Positions(idx, LogOf(s, id))
              && var turns := Picked(idx, LogOf(s, id));
                 && Tells(s.rows[id].transcript, turns)
                 && s.rows[id].transcript == TranscriptOf(turns)
                 && s.rows[id].tokens == TokensOf(turns)
                 && s.rows[id].ttsChars == TtsCharsOf(turns)
  {
    RunKeepsInv(START, es);
    var s := Run(START, es);
    var idx: seq<nat> :| Holds(s.rows[id], LogOf(s, id), idx);
    assert Positions(idx, LogOf(s, id));
    TranscriptTells(Picked(idx, LogOf(s, id)));
  }

  /** Updates do get lost: of two overlapping turns only the one saved last is stored. */
  lemma OverlappingTurnsLoseOne()
    ensures var es := [Create(1, 0.0), TurnRead(1, 1, 1.0), TurnRead(2, 1, 1.0),
                       TurnSave(1, "a", "b", 10, 1, 2.0), TurnSave(2, "c", "d", 20, 2, 3.0)];
            var s := Run(START, es);
            1 in s.rows && |LogOf(s, 1)| == 2 && |s.rows[1].transcript| == 2 && s.rows[1].tokens == 20
  {
    var s1 := Step(START, Create(1, 0.0));
    var s2 := Step(s1, TurnRead(1, 1, 1.0));
    var s3 := Step(s2, TurnRead(2, 1, 1.0));
    var s4 := Step(s3, TurnSave(1, "a", "b", 10, 1, 2.0));
    var s5 := Step(s4, TurnSave(2, "c", "d", 20, 2, 3.0));
    assert Run(s4, [TurnSave(2, "c", "d", 20, 2, 3.0)]) == s5;
    assert Run(s3, [TurnSave(1, "a", "b", 10, 1, 2.0), TurnSave(2, "c", "d", 20, 2, 3.0)]) == s5;
    assert Run(s2, [TurnRead(2, 1, 1.0), TurnSave(1, "a", "b", 10, 1, 2.0), TurnSave(2, "c", "d", 20, 2, 3.0)]) == s5;
    assert Run(s1, [TurnRead(1, 1, 1.0), TurnRead(2, 1, 1.0), TurnSave(1, "a", "b", 10, 1, 2.0),
                    TurnSave(2, "c", "d", 20, 2, 3.0)]) == s5;
  }

  /** The statuses a row can move to in one step. */
  predicate Allowed(before: SessionStatus, after: SessionStatus) {
    || before == after
    || before == Active
    || (after != Active && after != TimedOut)
  }

  lemma StepStatuses(s: State, e: Event, id: int)
    requires Inv(s) && id in s.rows
    ensures id in Step(s, e).rows
    ensures Allowed(s.rows[id].status, Step(s, e).rows[id].status)
    ensures s.rows[id].endedAt.Some? ==> Step(s, e).rows[id].endedAt.Some?
    ensures Step(s, e).rows[id].startedAt == s.rows[id].startedAt
  {
  }

  /**
   Status safety. At every moment of every run: a session that has left ACTIVE does not become ACTIVE again,
   nor TIMEOUT unless it was; COMPLETED and TIMEOUT have an end time, TIMEOUT one more than two hours after the
   start; an end time rules out ACTIVE and is never removed.
   */
  lemma {:induction false} StatusSafety(s: State, es: seq<Event>, id: int)
    requires Inv(s) && id in s.rows
    ensures id in Run(s, es).rows
    ensures var before, after := s.rows[id], Run(s, es).rows[id];
            && Allowed(before.status, after.status)
            && (after.status == Completed || after.status == TimedOut ==> after.endedAt.Some?)
            && (after.status == TimedOut ==> after.endedAt.value - after.startedAt > 7200.0)
            && (after.endedAt.Some? ==> after.status != Active)
            && (before.endedAt.Some? ==> after.endedAt.Some?)
            && after.startedAt == before.startedAt
    decreases |es|
  {
    assert RowOk(s.rows[id]);
    if es == [] {
    } else {
      StepKeepsInv(s, es[0]);
      StepStatuses(s, es[0], id);
      StatusSafety(Step(s, es[0]), es[1..], id);
    }
  }

  /** A terminal status is not final: a turn that overlaps the end and then fails turns COMPLETED into FAILED. */
  lemma FailingTurnOverwritesCompleted()
    ensures var completed := Run(START, [Create(1, 0.0), TurnRead(1, 1, 1.0), EndRead(2, 1, 2.0), EndSave(2, 2.0)]);
            var failed := Step(completed, TurnFail(1, 3.0));
            && 1 in completed.rows && completed.rows[1].status == Completed
            && 1 in failed.rows && failed.rows[1].status == Failed && failed.rows[1].endedAt == Some(2.0)
  {
    var s1 := Step(START, Create(1, 0.0));
    var s2 := Step(s1, TurnRead(1, 1, 1.0));
    var s3 := Step(s2, EndRead(2, 1, 2.0));
    var s4 := Step(s3, EndSave(2, 2.0));
    assert Run(s3, [EndSave(2, 2.0)]) == s4;
    assert Run(s2, [EndRead(2, 1, 2.0), EndSave(2, 2.0)]) == s4;
    assert Run(s1, [TurnRead(1, 1, 1.0), EndRead(2, 1, 2.0), EndSave(2, 2.0)]) == s4;
  }

  // ---------------------------------------------------------------------------------------------
  // The prompt of a turn.

  function History(transcript: seq<Entry>): seq<Message> {
    seq(|transcript|, i requires 0 <= i < |transcript| => Message(transcript[i].role, transcript[i].content))
  }

  /** After the system prompt, the user and assistant messages of the last five of these turns, then the new words. */
  ghost predicate SendsTurns(messages: seq<Message>, system: string, turns: seq<Turn>, user: string) {
    var recent := if |turns| <= 5 then turns else turns[|turns| - 5..];
    && |messages| == 2 * |recent| + 2
    && messages[0] == Message(System, system)
    && messages[2 * |recent| + 1] == Message(User, user)
    && forall k | 0 <= k < |recent| ::
         && messages[2 * k + 1] == Message(User, recent[k].user)
         && messages[2 * k + 2] == Message(Assistant, recent[k].reply)
  }

  lemma TurnsSent(messages: seq<Message>, system: string, transcript: seq<Entry>, turns: seq<Turn>, user: string)
    requires Tells(transcript, turns) && Sends(messages, system, History(transcript), user)
    ensures SendsTurns(messages, system, turns, user)
  {
    var recent := if |turns| <= 5 then turns else turns[|turns| - 5..];
    forall k | 0 <= k < |recent|
      ensures messages[2 * k + 1] == Message(User, recent[k].user)
      ensures messages[2 * k + 2] == Message(Assistant, recent[k].reply)
    {
      var from := |turns| - |recent| + k;
      assert recent[k] == turns[from];
      assert messages[2 * k + 1] == History(transcript)[2 * from];
      assert messages[2 * k + 2] == History(transcript)[2 * from + 1];
    }
  }

  lemma PromptOfTurns(transcript: seq<Entry>, turns: seq<Turn>, system: string, user: string)
    requires Tells(transcript, turns)
    ensures var messages := Prompt(system, History(transcript), user);
            WellShaped(messages) && SendsTurns(messages, system, turns, user)
    ensures Prompt(system, History(LastTen(transcript)), user) == Prompt(system, History(transcript), user)
  {
    var history := History(transcript);
    TellingIsPairs(transcript, turns);
    PromptShape(system, history, user);
    assert History(LastTen(transcript)) == LastTen(history);
    CutTwice(system, history, user);
    PromptContents(Prompt(system, history, user), system, history, user);
    TurnsSent(Prompt(system, history, user), system, transcript, turns, user);
  }

  lemma TellingIsPairs(transcript: seq<Entry>, turns: seq<Turn>)
    requires Tells(transcript, turns)
    ensures Pairs(History(transcript))
  {
    forall i | 0 <= i < |transcript|
      ensures transcript[i].role == if i % 2 == 0 then User else Assistant
    {
      var turn := turns[i / 2];
      assert transcript[i] == if i % 2 == 0 then Entry(User, turn.user, turn.at)
                              else Entry(Assistant, turn.reply, turn.at);
    }
  }

  /**
   In every reachable state, the message list of a turn on a stored session says what the last five turns that the row
   accounts for said, in their order, between system prompt and new words; user and assistant alternate, and that
   the view cuts the history to ten before the call makes no difference.
   */
  lemma PromptOfStoredSession(es: seq<Event>, id: int, system: string, user: string)
    requires id in Run(START, es).rows
    ensures var s := Run(START, es);
            var messages := Prompt(system, History(LastTen(s.rows[id].transcript)), user);
            && WellShaped(messages)
            && messages == Prompt(system, History(s.rows[id].transcript), user)
            && exists idx: seq<nat> ::
                 && Positions(idx, LogOf(s, id))
                 && Tells(s.rows[id].transcript, Picked(idx, LogOf(s, id)))
                 && SendsTurns(messages, system, Picked(idx, LogOf(s, id)), user)
  {
    SnapshotConsistency(es, id);
    var log, transcript := LogOf(Run(START, es), id), Run(START, es).rows[id].transcript;
    var idx: seq<nat> :| Positions(idx, log) && Tells(transcript, Picked(idx, log));
    PromptOfTurns(transcript, Picked(idx, log), system, user);
  }
}
