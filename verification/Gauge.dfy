/** The gauge of active voice sessions: who raises it, who lowers it, and what it then counts. */
module Gauge {
  import opened Sessions

  datatype World = World(
    sessions: State,
    gauge: int,
    ended: seq<int>,       // history: the session of each end that was saved
    open: set<int>,        // accepted sockets
    turnedAway: set<int>,  // sockets closed without being accepted, still to be disconnected
    strays: nat)           // history: disconnects of sockets that were never accepted

  const WORLD_START := World(START, 0, [], {}, {}, 0)

  datatype WorldEvent =
    | OnSession(e: Event)
    | Connect(socket: int, authenticated: bool)
    | Disconnect(socket: int)

  function WorldStep(s: World, e: WorldEvent): World {
    match e
    case OnSession(ev) =>
      var created := ev.Create? && ev.id !in s.sessions.rows;
      var ended := ev.EndSave? && IsEnding(s.sessions, ev.request);
      s.(sessions := Step(s.sessions, ev),
         gauge := s.gauge + (if created then 1 else 0) - (if ended then 1 else 0),
         ended := s.ended + (if ended then [s.sessions.pending[ev.request].id] else []))
    case Connect(socket, authenticated) =>
      if socket in s.open || socket in s.turnedAway then s
      else if authenticated then s.(open := s.open + {socket}, gauge := s.gauge + 1)
      else s.(turnedAway := s.turnedAway + {socket})
    case Disconnect(socket) =>
      if socket in s.open then s.(open := s.open - {socket}, gauge := s.gauge - 1)
      else if socket in s.turnedAway then
        s.(turnedAway := s.turnedAway - {socket}, gauge := s.gauge - 1, strays := s.strays + 1)
      else s
  }

  function WorldRun(s: World, es: seq<WorldEvent>): World
    decreases |es|
  {
    if es == [] then s else WorldRun(WorldStep(s, es[0]), es[1..])
  }

  ghost predicate Balanced(s: World) {
    s.gauge == |s.sessions.rows| - |s.ended| + |s.open| - s.strays
  }

  lemma RowsAfterStep(s: State, e: Event)
    ensures |Step(s, e).rows| == |s.rows| + if e.Create? && e.id !in s.rows then 1 else 0
  {
    var next := Step(s, e).rows;
    assert next.Keys == if e.Create? then s.rows.Keys + {e.id} else s.rows.Keys;
    assert |next| == |next.Keys| && |s.rows| == |s.rows.Keys|;
  }

  lemma StepKeepsBalance(s: World, e: WorldEvent)
    requires Balanced(s)
    ensures Balanced(WorldStep(s, e))
  {
    match e
    case OnSession(ev) =>
      RowsAfterStep(s.sessions, ev);
    case Connect(socket, authenticated) =>
    case Disconnect(socket) =>
  }

  /** Conservation under every interleaving: created sessions less saved ends, open sockets less stray disconnects. */
  lemma {:induction false} GaugeConservation(s: World, es: seq<WorldEvent>)
    requires Balanced(s)
    ensures Balanced(WorldRun(s, es))
    decreases |es|
  {
    if es == [] {
    } else {
      StepKeepsBalance(s, es[0]);
      GaugeConservation(WorldStep(s, es[0]), es[1..]);
    }
  }

  lemma RunOne(s: World, e: WorldEvent)
    ensures WorldRun(s, [e]) == WorldStep(s, e)
  {
    assert WorldRun(WorldStep(s, e), [e][1..]) == WorldStep(s, e);
  }

  lemma RunTwo(s: World, e: WorldEvent, f: WorldEvent)
    ensures WorldRun(s, [e, f]) == WorldStep(WorldStep(s, e), f)
  {
    RunOne(WorldStep(s, e), f);
    assert [e, f][1..] == [f];
  }

  /**
   A new socket with a user is open and counted until it is disconnected; one without a user is never open or
   counted, and its disconnect takes one too many off.
   */
  lemma SocketRoundTrip(s: World, socket: int, authenticated: bool)
    requires socket !in s.open && socket !in s.turnedAway
    ensures var connected := WorldRun(s, [Connect(socket, authenticated)]);
            var gone := WorldRun(s, [Connect(socket, authenticated), Disconnect(socket)]);
            && connected.open == (if authenticated then s.open + {socket} else s.open)
            && connected.gauge == (if authenticated then s.gauge + 1 else s.gauge)
            && connected.sessions == gone.sessions == s.sessions
            && gone.open == s.open && gone.turnedAway == s.turnedAway
            && gone.gauge == (if authenticated then s.gauge else s.gauge - 1)
  {
    RunOne(s, Connect(socket, authenticated));
    RunTwo(s, Connect(socket, authenticated), Disconnect(socket));
  }

  // ---------------------------------------------------------------------------------------------
  // What the gauge counts when requests overlap.

  function WithStatus(rows: map<int, Row>, status: SessionStatus): set<int> {
    set id | id in rows && rows[id].status == status
  }

  lemma RowsByStatus(rows: map<int, Row>)
    ensures |rows| == |WithStatus(rows, Active)| + |WithStatus(rows, Failed)| + |WithStatus(rows, TimedOut)|
                      + |WithStatus(rows, Completed)|
  {
    var a, f := WithStatus(rows, Active), WithStatus(rows, Failed);
    var t, c := WithStatus(rows, TimedOut), WithStatus(rows, Completed);
    forall id | id in rows
      ensures id in a + f + t + c
    {
      match rows[id].status
      case Active => assert id in a;
      case Failed => assert id in f;
      case TimedOut => assert id in t;
      case Completed => assert id in c;
    }
    assert rows.Keys == a + f + t + c;
    assert a !! f && (a + f) !! t && (a + f + t) !! c;
    assert |rows| == |rows.Keys|;
  }

  /** Every completed session has had an end saved, and every end was that of a stored session. */
  ghost predicate EndsKnown(s: World) {
    && (forall request | request in s.sessions.pending :: s.sessions.pending[request].id in s.sessions.rows)
    && (forall id | id in s.ended :: id in s.sessions.rows)
    && (forall id | id in WithStatus(s.sessions.rows, Completed) :: id in s.ended)
  }

  lemma StepKeepsEnds(s: World, e: WorldEvent)
    requires EndsKnown(s)
    ensures EndsKnown(WorldStep(s, e))
  {
    var t := WorldStep(s, e);
    forall id | id in WithStatus(t.sessions.rows, Completed)
      ensures id in t.ended
    {
      if id in s.ended {
        assert t.ended[..|s.ended|] == s.ended;
      } else {
        assert id !in WithStatus(s.sessions.rows, Completed);
      }
    }
  }

  lemma {:induction false} RunKeepsEnds(s: World, es: seq<WorldEvent>)
    requires EndsKnown(s)
    ensures EndsKnown(WorldRun(s, es))
    decreases |es|
  {
    if es == [] {
    } else {
      StepKeepsEnds(s, es[0]);
      RunKeepsEnds(WorldStep(s, es[0]), es[1..]);
    }
  }

  function IdsOf(ids: seq<int>): set<int> {
    set id | id in ids
  }

  ghost predicate Distinct(ids: seq<int>) {
    forall i, j | 0 <= i < j < |ids| :: ids[i] != ids[j]
  }

  lemma {:induction false} CountIds(ids: seq<int>)
    ensures |IdsOf(ids)| <= |ids|
    ensures |IdsOf(ids)| == |ids| <==> Distinct(ids)
    decreases |ids|
  {
    if ids == [] {
    } else {
      var before, last := ids[..|ids| - 1], ids[|ids| - 1];
      CountIds(before);
      assert ids == before + [last];
      assert IdsOf(ids) == IdsOf(before) + {last};
      if last in before {
        var i :| 0 <= i < |before| && before[i] == last;
        assert ids[i] == ids[|ids| - 1];
      }
    }
  }

  lemma SubsetCount(a: set<int>, b: set<int>)
    requires a <= b
    ensures |a| <= |b|
    ensures |a| == |b| <==> b <= a
  {
    assert b == a + (b - a);
    assert |b| == |a| + |b - a|;
    if |a| == |b| {
      assert b - a == {};
    }
  }

  /** Every saved end was of another session, and that session is still completed. */
  ghost predicate EachEndStands(s: World) {
    && Distinct(s.ended)
    && forall id | id in s.ended :: id in s.sessions.rows && s.sessions.rows[id].status == Completed
  }

  lemma EndsAgainstCompleted(s: World)
    requires EndsKnown(s)
    ensures var completed := |WithStatus(s.sessions.rows, Completed)|;
            completed <= |s.ended| && (completed == |s.ended| <==> EachEndStands(s))
  {
    var completed, ids := WithStatus(s.sessions.rows, Completed), IdsOf(s.ended);
    assert completed <= ids by {
      forall id | id in completed
        ensures id in ids
      {
        assert id in s.ended;
      }
    }
    CountIds(s.ended);
    SubsetCount(completed, ids);
    if ids <= completed {
      assert forall id | id in s.ended :: id in ids;
    }
  }

  /**
   Under every interleaving the gauge is at most the number of active, failed and timed-out sessions and open
   sockets, less the stray disconnects. It is just that exactly when every end was saved on another session, and
   that session is still completed: a second end, or a turn that fails after the end, takes one too many off.
   */
  lemma GaugeUnderOverlap(es: seq<WorldEvent>)
    ensures var s := WorldRun(WORLD_START, es);
            var rows := s.sessions.rows;
            var counted := |WithStatus(rows, Active)| + |WithStatus(rows, Failed)| + |WithStatus(rows, TimedOut)|
                           + |s.open| - s.strays;
            && s.gauge <= counted
            && (s.gauge == counted <==> EachEndStands(s))
  {
    var s := WorldRun(WORLD_START, es);
    RunKeepsEnds(WORLD_START, es);
    GaugeConservation(WORLD_START, es);
    RowsByStatus(s.sessions.rows);
    EndsAgainstCompleted(s);
  }

  // ---------------------------------------------------------------------------------------------
  // Requests that do not overlap: then the saved ends are the completed sessions.

  datatype Request =
    | Start(id: int, now: real)
    | TurnDone(id: int, user: string, reply: string, tokens: nat, ttsChars: nat, now: real)
    | TurnFailed(id: int, now: real)
    | End(id: int, now: real)
    | Cleanup(now: real)
    | SocketOpens(socket: int, authenticated: bool)
    | SocketCloses(socket: int)

  /** The steps of one request, one right after the other. */
  function StepsOf(r: Request): seq<WorldEvent> {
    match r
    case Start(id, now) => [OnSession(Create(id, now))]
    case TurnDone(id, user, reply, tokens, ttsChars, now) =>
      [OnSession(TurnRead(0, id, now)), OnSession(TurnSave(0, user, reply, tokens, ttsChars, now))]
    case TurnFailed(id, now) => [OnSession(TurnRead(0, id, now)), OnSession(TurnFail(0, now))]
    case End(id, now) => [OnSession(EndRead(0, id, now)), OnSession(EndSave(0, now))]
    case Cleanup(now) => [OnSession(Sweep(now))]
    case SocketOpens(socket, authenticated) => [Connect(socket, authenticated)]
    case SocketCloses(socket) => [Disconnect(socket)]
  }

  function Serve(s: World, r: Request): World {
    WorldRun(s, StepsOf(r))
  }

  function ServeAll(s: World, rs: seq<Request>): World
    decreases |rs|
  {
    if rs == [] then s else ServeAll(Serve(s, rs[0]), rs[1..])
  }

  ghost predicate EndsAreCompleted(s: World) {
    s.sessions.pending == map[] && |s.ended| == |WithStatus(s.sessions.rows, Completed)|
  }

  lemma ServeStart(s: World, r: Request)
    requires EndsAreCompleted(s) && r.Start?
    ensures EndsAreCompleted(Serve(s, r))
  {
    RunOne(s, StepsOf(r)[0]);
    assert WithStatus(Serve(s, r).sessions.rows, Completed) == WithStatus(s.sessions.rows, Completed);
  }

  lemma ServeTurn(s: World, r: Request)
    requires EndsAreCompleted(s) && (r.TurnDone? || r.TurnFailed?)
    ensures EndsAreCompleted(Serve(s, r))
  {
    RunTwo(s, StepsOf(r)[0], StepsOf(r)[1]);
    var read := WorldStep(s, StepsOf(r)[0]);
    var after := Serve(s, r);
    if IsActive(s.sessions, r.id) {
      assert read.sessions.pending == map[0 := Turning(r.id, s.sessions.rows[r.id])];
    } else {
      assert read.sessions.pending == map[];
    }
    assert after.sessions.pending == map[];
    assert WithStatus(after.sessions.rows, Completed) == WithStatus(s.sessions.rows, Completed);
  }

  lemma ServeEnd(s: World, r: Request)
    requires EndsAreCompleted(s) && r.End?
    ensures EndsAreCompleted(Serve(s, r))
  {
    RunTwo(s, StepsOf(r)[0], StepsOf(r)[1]);
    var read := WorldStep(s, StepsOf(r)[0]);
    var after := Serve(s, r);
    if IsActive(s.sessions, r.id) {
      assert read.sessions.pending == map[0 := Ending(r.id, s.sessions.rows[r.id], r.now)];
      assert after.sessions.pending == map[];
      assert WithStatus(after.sessions.rows, Completed) == WithStatus(s.sessions.rows, Completed) + {r.id};
    } else {
      assert read.sessions.pending == map[];
    }
  }

  lemma ServeCleanup(s: World, r: Request)
    requires EndsAreCompleted(s) && r.Cleanup?
    ensures EndsAreCompleted(Serve(s, r))
  {
    RunOne(s, StepsOf(r)[0]);
    assert forall id | id in s.sessions.rows ::
        Serve(s, r).sessions.rows[id] == SweepRow(s.sessions.rows[id], r.now);
    assert WithStatus(Serve(s, r).sessions.rows, Completed) == WithStatus(s.sessions.rows, Completed);
  }

  lemma ServeKeepsEnds(s: World, r: Request)
    requires EndsAreCompleted(s)
    ensures EndsAreCompleted(Serve(s, r))
  {
    match r
    case Start(_, _) => ServeStart(s, r);
    case TurnDone(_, _, _, _, _, _) => ServeTurn(s, r);
    case TurnFailed(_, _) => ServeTurn(s, r);
    case End(_, _) => ServeEnd(s, r);
    case Cleanup(_) => ServeCleanup(s, r);
    case SocketOpens(_, _) => RunOne(s, StepsOf(r)[0]);
    case SocketCloses(_) => RunOne(s, StepsOf(r)[0]);
  }

  lemma {:induction false} ServeAllKeeps(s: World, rs: seq<Request>)
    requires Balanced(s) && EndsAreCompleted(s)
    ensures Balanced(ServeAll(s, rs)) && EndsAreCompleted(ServeAll(s, rs))
    decreases |rs|
  {
    if rs == [] {
    } else {
      GaugeConservation(s, StepsOf(rs[0]));
      ServeKeepsEnds(s, rs[0]);
      ServeAllKeeps(Serve(s, rs[0]), rs[1..]);
    }
  }

  /**
   What the gauge counts when requests do not overlap: besides active sessions and open sockets also every
   failed and every timed-out session, less the disconnects of sockets that were never accepted. So it is
   the number of active sessions and open sockets exactly when these extra terms cancel.
   */
  lemma GaugeLaw(rs: seq<Request>)
    ensures var s := ServeAll(WORLD_START, rs);
            var rows := s.sessions.rows;
            && s.gauge == |WithStatus(rows, Active)| + |WithStatus(rows, Failed)| + |WithStatus(rows, TimedOut)|
                          + |s.open| - s.strays
            && (s.gauge == |WithStatus(rows, Active)| + |s.open|
                <==> |WithStatus(rows, Failed)| + |WithStatus(rows, TimedOut)| == s.strays)
  {
    assert WithStatus(WORLD_START.sessions.rows, Completed) == {};
    ServeAllKeeps(WORLD_START, rs);
    RowsByStatus(ServeAll(WORLD_START, rs).sessions.rows);
  }

  /** So the gauge is not the number of active sessions and open sockets: a failed session stays in it. */
  lemma FailedSessionStaysInGauge()
    ensures var s := ServeAll(WORLD_START, [Start(1, 0.0), TurnFailed(1, 1.0)]);
            s.gauge == 1 && WithStatus(s.sessions.rows, Active) == {} && s.open == {}
  {
    var started := Serve(WORLD_START, Start(1, 0.0));
    RunOne(WORLD_START, StepsOf(Start(1, 0.0))[0]);
    RunTwo(started, StepsOf(TurnFailed(1, 1.0))[0], StepsOf(TurnFailed(1, 1.0))[1]);
    var failed := Serve(started, TurnFailed(1, 1.0));
    assert ServeAll(started, [TurnFailed(1, 1.0)]) == ServeAll(failed, [TurnFailed(1, 1.0)][1..]) == failed;
    assert [Start(1, 0.0), TurnFailed(1, 1.0)][1..] == [TurnFailed(1, 1.0)];
  }
}
