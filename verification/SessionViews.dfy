/**
 The objects behind the session requests: the table, a loaded session, the gauge, the view set and the
 socket consumer. Each method is tied to the column writes of Sessions.dfy, which the interleaving proofs use.
 */
module SessionViews {
  import opened Common
  import opened PyStrings
  import opened Conversation
  import opened Sessions
  import VoiceAgent

  const HTTP_OK := 200
  const HTTP_BAD_REQUEST := 400
  const HTTP_NOT_FOUND := 404
  const HTTP_SERVER_ERROR := 500

  class SessionTable {
    var rows: map<int, Row>

    constructor ()
      ensures rows == map[]
    {
      rows := map[];
    }
  }

  class ActiveSessionsGauge {
    var value: int

    constructor ()
      ensures value == 0
    {
      value := 0;
    }

    method Inc()
      modifies this
      ensures value == old(value) + 1
    {
      value := value + 1;
    }

    method Dec()
      modifies this
      ensures value == old(value) - 1
    {
      value := value - 1;
    }
  }

  /** A session as one request holds it in memory; the table may have moved on. */
  class VoiceSession {
    const id: int
    var status: SessionStatus
    var startedAt: real
    var endedAt: Option<real>
    var durationSeconds: nat
    var transcript: seq<Entry>
    var tokensUsed: nat
    var ttsCharacters: nat

    ghost function Abs(): Row
      reads this
    {
      Row(status, startedAt, endedAt, durationSeconds, transcript, tokensUsed, ttsCharacters)
    }

    constructor (id: int, row: Row)
      ensures this.id == id && Abs() == row
    {
      this.id := id;
      status, startedAt, endedAt, durationSeconds := row.status, row.startedAt, row.endedAt, row.duration;
      transcript, tokensUsed, ttsCharacters := row.transcript, row.tokens, row.ttsChars;
    }

    /** save(update_fields=["status"]) */
    method SaveStatus(table: SessionTable)
      requires id in table.rows
      modifies table
      ensures table.rows == old(table.rows)[id := old(table.rows)[id].(status := status)]
    {
      table.rows := table.rows[id := table.rows[id].(status := status)];
    }

    /** save(update_fields=["transcript", "tokens_used", "tts_characters"]) */
    method SaveTranscript(table: SessionTable)
      requires id in table.rows
      modifies table
      ensures table.rows == old(table.rows)[id := old(table.rows)[id].(
                              transcript := transcript, tokens := tokensUsed, ttsChars := ttsCharacters)]
    {
      table.rows := table.rows[id := table.rows[id].(
                      transcript := transcript, tokens := tokensUsed, ttsChars := ttsCharacters)];
    }

    /** save(update_fields=["status", "ended_at", "duration_seconds"]) */
    method SaveEnding(table: SessionTable)
      requires id in table.rows
      modifies table
      ensures table.rows == old(table.rows)[id := old(table.rows)[id].(
                              status := status, endedAt := endedAt, duration := durationSeconds)]
    {
      table.rows := table.rows[id := table.rows[id].(
                      status := status, endedAt := endedAt, duration := durationSeconds)];
    }
  }

  class VoiceSessionViewSet {
    const table: SessionTable
    const gauge: ActiveSessionsGauge

    constructor (table: SessionTable, gauge: ActiveSessionsGauge)
      ensures this.table == table && this.gauge == gauge
    {
      this.table, this.gauge := table, gauge;
    }

    /** create, with the fresh identifier that the table hands out. */
    method Create(id: int, now: real)
      requires id !in table.rows
      modifies table, gauge
      ensures table.rows == old(table.rows)[id := NewRow(now)] && gauge.value == old(gauge.value) + 1
      ensures table.rows[id] == Row(Active, now, None, 0, [], 0, 0)
    {
      table.rows := table.rows[id := NewRow(now)];
      gauge.Inc();
    }

    /** get_object and the status check, shared by a turn and an end. */
    method Load(id: int) returns (session: VoiceSession?, status: nat)
      ensures session != null <==> id in table.rows && table.rows[id].status == Active
      ensures session != null ==> fresh(session) && session.id == id && session.Abs() == table.rows[id] && status == HTTP_OK
      ensures session == null ==> status == if id in table.rows then HTTP_BAD_REQUEST else HTTP_NOT_FOUND
    {
      if id !in table.rows {
        return null, HTTP_NOT_FOUND;
      }
      session := new VoiceSession(id, table.rows[id]);
      if session.status != Active {
        return null, HTTP_BAD_REQUEST;
      }
      status := HTTP_OK;
    }

    /** The end of a turn that worked: what another request has stored meanwhile is written over. */
    method FinishTurn(session: VoiceSession, t: Turn)
      requires session.id in table.rows
      modifies table, session
      ensures table.rows == old(table.rows)[session.id :=
                              SaveTurn(old(table.rows)[session.id], old(session.Abs()), t)]
      ensures table.rows == old(table.rows)[session.id := old(table.rows)[session.id].(
                              transcript := old(session.transcript)
                                            + [Entry(User, t.user, t.at), Entry(Assistant, t.reply, t.at)],
                              tokens := old(session.tokensUsed) + t.tokens,
                              ttsChars := old(session.ttsCharacters) + t.ttsChars)]
    {
      session.transcript := session.transcript + [Entry(User, t.user, t.at), Entry(Assistant, t.reply, t.at)];
      session.tokensUsed := session.tokensUsed + t.tokens;
      session.ttsCharacters := session.ttsCharacters + t.ttsChars;
      session.SaveTranscript(table);
    }

    /** The end of a turn that raised. */
    method FailTurn(session: VoiceSession)
      requires session.id in table.rows
      modifies table, session
      ensures table.rows == old(table.rows)[session.id := SaveFailed(old(table.rows)[session.id])]
      ensures table.rows == old(table.rows)[session.id := old(table.rows)[session.id].(status := Failed)]
    {
      session.status := Failed;
      session.SaveStatus(table);
    }

    /** The end of end_session. */
    method FinishEnd(session: VoiceSession, now: real) returns (duration: nat)
      requires session.id in table.rows
      modifies table, gauge, session
      ensures table.rows == old(table.rows)[session.id :=
                              SaveEnd(old(table.rows)[session.id], old(session.Abs()), now)]
      ensures table.rows == old(table.rows)[session.id := old(table.rows)[session.id].(
                              status := Completed, endedAt := Some(now), duration := duration)]
      ensures gauge.value == old(gauge.value) - 1
      ensures duration == (now - old(session.startedAt)).Floor % 86400
    {
      session.status := Completed;
      session.endedAt := Some(now);
      duration := SecondsField(now - session.startedAt);
      session.durationSeconds := duration;
      session.SaveEnding(table);
      gauge.Dec();
    }

    /** end_session with nothing in between. */
    method EndSession(id: int, now: real) returns (status: nat)
      modifies table, gauge
      ensures status == HTTP_OK <==> id in old(table.rows) && old(table.rows)[id].status == Active
      ensures status == HTTP_OK ==>
                && table.rows == old(table.rows)[id := SaveEnd(old(table.rows)[id], old(table.rows)[id], now)]
                && gauge.value == old(gauge.value) - 1
      ensures status != HTTP_OK ==> table.rows == old(table.rows) && gauge.value == old(gauge.value)
    {
      var session, loaded := Load(id);
      if session == null {
        return loaded;
      }
      var duration := FinishEnd(session, now);
      return HTTP_OK;
    }

    /** process_turn with nothing in between: the history of the row goes to the agent, the result into the row. */
    method ProcessTurn(
      id: int, textInput: Option<string>, hasAudio: bool, now: real, system: string,
      parse: string -> VoiceAgent.Parsed, transcription: Option<string>,
      completion: seq<Message> -> Option<VoiceAgent.Completion>, speechWorks: bool, generateAudio: bool)
      returns (status: nat)
      modifies table
      ensures var before := old(table.rows);
              var hasText := textInput.Some? && textInput.value != [];
              if id !in before then status == HTTP_NOT_FOUND && table.rows == before
              else if before[id].status != Active || (!hasText && !hasAudio) then
                status == HTTP_BAD_REQUEST && table.rows == before
              else
                var result := VoiceAgent.TurnResult(
                    parse, system, if hasAudio then transcription else None, textInput,
                    History(before[id].transcript), completion, speechWorks, generateAudio);
                if result.None? then
                  status == HTTP_SERVER_ERROR && table.rows == before[id := SaveFailed(before[id])]
                else
                  && status == HTTP_OK
                  && table.rows == before[id := SaveTurn(before[id], before[id],
                       Turn(if hasText then textInput.value else "[audio input]",
                            result.value.text, result.value.tokensUsed, result.value.ttsChars, now))]
    {
      var session, loaded := Load(id);
      if session == null {
        return loaded;
      }
      var hasText := textInput.Some? && textInput.value != [];
      if !hasText && !hasAudio {
        return HTTP_BAD_REQUEST;
      }
      var history := History(LastTen(session.transcript));
      ghost var whole := History(session.transcript);
      assert history == LastTen(whole);
      SameTurnOnCutHistory(parse, system, if hasAudio then transcription else None, textInput, whole, completion,
                           speechWorks, generateAudio);
      var result := VoiceAgent.ProcessVoiceTurn(
        parse, system, if hasAudio then transcription else None, textInput, history, completion, speechWorks, generateAudio);
      if result.None? {
        FailTurn(session);
        return HTTP_SERVER_ERROR;
      }
      var userContent := if hasText then textInput.value else "[audio input]";
      FinishTurn(session, Turn(userContent, result.value.text, result.value.tokensUsed, result.value.ttsChars, now));
      return HTTP_OK;
    }
  }

  lemma SameTurnOnCutHistory(
    parse: string -> VoiceAgent.Parsed, system: string, transcription: Option<string>, textInput: Option<string>,
    history: seq<Message>, completion: seq<Message> -> Option<VoiceAgent.Completion>, speechWorks: bool,
    generateAudio: bool)
    ensures VoiceAgent.TurnResult(
              parse, system, transcription, textInput, LastTen(history), completion, speechWorks, generateAudio)
            == VoiceAgent.TurnResult(
              parse, system, transcription, textInput, history, completion, speechWorks, generateAudio)
  {
  }

  /** cleanup_expired_sessions: one update of the table; the number of rows it changed is returned. */
  method CleanupExpiredSessions(table: SessionTable, now: real) returns (updated: nat)
    modifies table
    ensures table.rows == SweepRows(old(table.rows), now)
    ensures table.rows.Keys == old(table.rows).Keys
    ensures forall id | id in old(table.rows) ::
              var before := old(table.rows)[id];
              table.rows[id] == if before.status == Active && now - before.startedAt > 7200.0
                                then before.(status := TimedOut, endedAt := Some(now)) else before
    ensures updated == |set id | id in old(table.rows) && table.rows[id] != old(table.rows)[id]|
  {
    var expired := set id | id in table.rows
                            && table.rows[id].status == Active && table.rows[id].startedAt < now - TIMEOUT_AGE;
    ghost var before := table.rows;
    table.rows := map id | id in table.rows ::
      if id in expired then table.rows[id].(status := TimedOut, endedAt := Some(now)) else table.rows[id];
    assert forall id | id in before :: table.rows[id] == SweepRow(before[id], now);
    assert expired == set id | id in before && table.rows[id] != before[id];
    updated := |expired|;
  }

  /** The WebSocket side: its history lives in memory and is not stored. */
  class VoiceSessionConsumer {
    const gauge: ActiveSessionsGauge
    var user: Option<string>
    var groupName: Option<string>
    var accepted: bool
    var conversationHistory: seq<Message>

    ghost predicate Valid()
      reads this
    {
      Pairs(conversationHistory) && (accepted ==> user.Some? && groupName == Some("guest_" + user.value))
    }

    constructor (gauge: ActiveSessionsGauge)
      ensures Valid() && this.gauge == gauge && !accepted && conversationHistory == [] && groupName.None?
    {
      this.gauge := gauge;
      user, groupName, accepted, conversationHistory := None, None, false, [];
    }

    /** connect; `authenticated` is what the token yields. */
    method Connect(authenticated: Option<string>)
      requires Valid() && !accepted
      modifies this, gauge
      ensures Valid() && conversationHistory == old(conversationHistory)
      ensures accepted <==> authenticated.Some?
      ensures user == authenticated
      ensures gauge.value == old(gauge.value) + if accepted then 1 else 0
    {
      user := authenticated;
      if user.None? {
        return;
      }
      groupName := Some("guest_" + user.value);
      accepted := true;
      gauge.Inc();
    }

    /** disconnect lowers the gauge whether or not the socket was accepted. */
    method Disconnect()
      modifies gauge
      ensures gauge.value == old(gauge.value) - 1
    {
      gauge.Dec();
    }

    /** _handle_text_input: `text` None is JSON null, for which the handler raises. */
    method HandleTextInput(
      text: Option<string>, system: string, parse: string -> VoiceAgent.Parsed,
      completion: seq<Message> -> Option<VoiceAgent.Completion>, speechWorks: bool, generateAudio: bool)
      returns (raised: bool, reply: Option<string>)
      requires Valid()
      modifies this`conversationHistory
      ensures Valid()
      ensures raised <==> text.None?
      ensures raised ==> reply.None?
      ensures reply.None? ==> conversationHistory == old(conversationHistory)
      ensures text.Some? ==>
                var input := Strip(text.value);
                var result := VoiceAgent.TurnResult(parse, system, None, Some(input), old(conversationHistory), completion,
                                                    speechWorks, generateAudio);
                && (reply.Some? <==> input != [] && result.Some?)
                && (reply.Some? ==>
                      && reply.value == result.value.text
                      && conversationHistory == old(conversationHistory)
                                                + [Message(User, input), Message(Assistant, result.value.text)])
    {
      if text.None? {
        return true, None;
      }
      var input := Strip(text.value);
      if input == [] {
        return false, None;
      }
      var result := VoiceAgent.ProcessVoiceTurn(
        parse, system, None, Some(input), conversationHistory, completion, speechWorks, generateAudio);
      if result.None? {
        return false, None;
      }
      PairsExtend(conversationHistory, input, result.value.text);
      conversationHistory := conversationHistory + [Message(User, input), Message(Assistant, result.value.text)];
      return false, Some(result.value.text);
    }

    /** _handle_audio_input hands on null as the text, so audio that can be decoded always ends in an error. */
    method HandleAudioInput(
      decodes: bool, system: string, parse: string -> VoiceAgent.Parsed,
      completion: seq<Message> -> Option<VoiceAgent.Completion>, speechWorks: bool, generateAudio: bool)
      returns (raised: bool, reply: Option<string>)
      requires Valid()
      modifies this`conversationHistory
      ensures Valid() && conversationHistory == old(conversationHistory)
      ensures reply.None? && (raised <==> decodes)
    {
      if !decodes {
        return false, None;
      }
      raised, reply := HandleTextInput(None, system, parse, completion, speechWorks, generateAudio);
    }
  }

  /** In every state of a socket, the next prompt has the right shape. */
  lemma SocketPromptShape(socket: VoiceSessionConsumer, system: string, text: string)
    requires socket.Valid()
    ensures WellShaped(Prompt(system, socket.conversationHistory, text))
    ensures Sends(Prompt(system, socket.conversationHistory, text), system, socket.conversationHistory, text)
  {
    PromptContents(Prompt(system, socket.conversationHistory, text), system, socket.conversationHistory, text);
    PromptShape(system, socket.conversationHistory, text);
  }
}
