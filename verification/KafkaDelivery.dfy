/**
 At-least-once delivery: the consumer as a step system with several partitions, producers that append at any
 time, commit requests that the broker applies later, in any order or never, and crashes at any step.

 `passes` is history: every message that was worked through to its commit request, with what was done for it.
 */
module KafkaDelivery {
  import opened Common
  import opened Kafka

  datatype Partition = Partition(topic: string, index: nat)

  type Logs = map<Partition, seq<Body>>

  /** A message in the course of _process_message: fails[h] for the handlers done, attempts of the current one. */
  datatype Work = Idle | Busy(p: Partition, o: nat, fails: seq<nat>, attempt: nat, effects: seq<Effect>)

  datatype Pass = Pass(p: Partition, o: nat, fails: seq<nat>, effects: seq<Effect>)

  /** "Everything below `next` is done", asked of the broker. */
  datatype CommitRequest = CommitRequest(p: Partition, next: nat)

  datatype State = State(
    logs: Logs,
    committed: map<Partition, nat>,
    requests: seq<CommitRequest>,
    up: bool,
    position: map<Partition, nat>,
    work: Work,
    passes: seq<Pass>)

  const START := State(map[], map[], [], false, map[], Idle, [])

  datatype Event =
    | Append(p: Partition, body: Body) // a producer, this consumer's dead letters included
    | PollMessage(p: Partition)
    | HandlerReturns
    | HandlerRaises                    // with the backoff or the dead letter that follows
    | RequestCommit
    | BrokerApplies(i: nat)
    | BrokerDrops(i: nat)
    | Crash                            // also: stop, or an exception that leaves the loop
    | Restart

  function OffsetIn(offsets: map<Partition, nat>, p: Partition): nat {
    if p in offsets then offsets[p] else 0 // auto.offset.reset = earliest
  }

  function LogOf(logs: Logs, p: Partition): seq<Body> {
    if p in logs then logs[p] else []
  }

  function MessageAt(logs: Logs, p: Partition, o: nat): Message
    requires o < |LogOf(logs, p)|
  {
    Message(p.topic, p.index, o, LogOf(logs, p)[o])
  }

  function Stopped(s: State): State {
    s.(up := false, position := map[], work := Idle)
  }

  /** The current message still has a handler to call. */
  predicate Working(registry: Registry, s: State) {
    && s.up && s.work.Busy? && s.work.o < |LogOf(s.logs, s.work.p)| && s.work.attempt < MAX_RETRIES
    && |s.work.fails| < Needed(registry, LogOf(s.logs, s.work.p)[s.work.o])
  }

  predicate Finished(registry: Registry, s: State) {
    && s.up && s.work.Busy? && s.work.o < |LogOf(s.logs, s.work.p)|
    && |s.work.fails| == Needed(registry, LogOf(s.logs, s.work.p)[s.work.o])
  }

  function Step(registry: Registry, s: State, e: Event): State {
    match e
    case Append(p, body) =>
      s.(logs := s.logs[p := LogOf(s.logs, p) + [body]])
    case PollMessage(p) =>
      var o := OffsetIn(s.position, p);
      if !s.up || s.work.Busy? || o >= |LogOf(s.logs, p)| then s
      else if LogOf(s.logs, p)[o].NotAnEvent? then Stopped(s)
      else s.(work := Busy(p, o, [], 0, []))
    case HandlerReturns =>
      if !Working(registry, s) then s
      else
        var w := s.work;
        s.(work := Busy(w.p, w.o, w.fails + [w.attempt], 0, w.effects + [Called(|w.fails|, true)]))
    case HandlerRaises =>
      if !Working(registry, s) then s
      else
        var w := s.work;
        var effects := w.effects + FailureEffects(MessageAt(s.logs, w.p, w.o), |w.fails|, w.attempt);
        if w.attempt + 1 < MAX_RETRIES then s.(work := w.(attempt := w.attempt + 1, effects := effects))
        else s.(work := Busy(w.p, w.o, w.fails + [MAX_RETRIES], 0, effects))
    case RequestCommit =>
      if !Finished(registry, s) then s
      else
        var w := s.work;
        s.(work := Idle,
           position := s.position[w.p := w.o + 1],
           requests := s.requests + [CommitRequest(w.p, w.o + 1)],
           passes := s.passes + [Pass(w.p, w.o, w.fails, w.effects)])
    case BrokerApplies(i) =>
      if i >= |s.requests| then s
      else s.(committed := s.committed[s.requests[i].p := s.requests[i].next], requests := Without(s.requests, i))
    case BrokerDrops(i) =>
      if i >= |s.requests| then s else s.(requests := Without(s.requests, i))
    case Crash => Stopped(s)
    case Restart =>
      if s.up then s else s.(up := true, position := s.committed, work := Idle)
  }

  function Run(registry: Registry, s: State, es: seq<Event>): State
    decreases |es|
  {
    if es == [] then s else Run(registry, Step(registry, s, es[0]), es[1..])
  }

  // ---------------------------------------------------------------------------------------------
  // Which offsets are dealt with.

  /** One complete pass over the message: each handler returned, or raised three times and was dead-lettered. */
  ghost predicate IsPassOver(registry: Registry, logs: Logs, pass: Pass, p: Partition, o: nat)
    requires o < |LogOf(logs, p)|
  {
    && pass.p == p && pass.o == o
    && |pass.fails| == Needed(registry, LogOf(logs, p)[o])
    && FailCounts(pass.fails)
    && pass.effects == MessageEffects(MessageAt(logs, p, o), pass.fails)
  }

  ghost predicate DealtWith(registry: Registry, s: State, p: Partition, o: nat) {
    && o < |LogOf(s.logs, p)|
    && !LogOf(s.logs, p)[o].NotAnEvent?
    && exists i: nat :: i < |s.passes| && IsPassOver(registry, s.logs, s.passes[i], p, o)
  }

  ghost predicate AllBelow(registry: Registry, s: State, p: Partition, next: nat) {
    forall o: nat | o < next :: DealtWith(registry, s, p, o)
  }

  ghost predicate WorkInv(registry: Registry, s: State) {
    var w := s.work;
    w.Busy? ==>
      && s.up
      && w.o == OffsetIn(s.position, w.p)
      && w.o < |LogOf(s.logs, w.p)|
      && var m := MessageAt(s.logs, w.p, w.o);
         && !m.body.NotAnEvent?
         && |w.fails| <= Needed(registry, m.body) && FailCounts(w.fails)
         && w.attempt < MAX_RETRIES && (w.attempt > 0 ==> |w.fails| < Needed(registry, m.body))
         && w.effects == MessageEffects(m, w.fails) + FailuresEffects(m, |w.fails|, w.attempt)
  }

  ghost predicate Inv(registry: Registry, s: State) {
    && WorkInv(registry, s)
    && (forall p :: AllBelow(registry, s, p, OffsetIn(s.committed, p)))
    && (forall p :: AllBelow(registry, s, p, OffsetIn(s.position, p)))
    && (forall i | 0 <= i < |s.requests| :: AllBelow(registry, s, s.requests[i].p, s.requests[i].next))
  }

  /** Logs and history only grow, so what is dealt with stays dealt with. */
  lemma DealtWithGrows(registry: Registry, s: State, next: State, p: Partition, o: nat)
    requires DealtWith(registry, s, p, o)
    requires LogOf(s.logs, p) <= LogOf(next.logs, p) && s.passes <= next.passes
    ensures DealtWith(registry, next, p, o)
  {
    var i: nat :| i < |s.passes| && IsPassOver(registry, s.logs, s.passes[i], p, o);
    assert LogOf(next.logs, p)[o] == LogOf(s.logs, p)[o];
    assert MessageAt(next.logs, p, o) == MessageAt(s.logs, p, o);
    assert IsPassOver(registry, next.logs, next.passes[i], p, o);
  }

  lemma AllBelowGrows(registry: Registry, s: State, next: State, p: Partition, c: nat)
    requires AllBelow(registry, s, p, c)
    requires LogOf(s.logs, p) <= LogOf(next.logs, p) && s.passes <= next.passes
    ensures AllBelow(registry, next, p, c)
  {
    forall o: nat | o < c
      ensures DealtWith(registry, next, p, o)
    {
      DealtWithGrows(registry, s, next, p, o);
    }
  }

  lemma StepGrows(registry: Registry, s: State, e: Event, p: Partition)
    ensures LogOf(s.logs, p) <= LogOf(Step(registry, s, e).logs, p)
    ensures s.passes <= Step(registry, s, e).passes
  {
  }

  /** The message in work, once finished, makes the next offset one that everything below is dealt with. */
  lemma FinishedDealtWith(registry: Registry, s: State)
    requires Inv(registry, s) && Finished(registry, s)
    ensures var next := Step(registry, s, RequestCommit);
            AllBelow(registry, next, s.work.p, s.work.o + 1)
  {
    var w := s.work;
    var next := Step(registry, s, RequestCommit);
    AllBelowGrows(registry, s, next, w.p, w.o);
    var last := |s.passes|;
    assert w.effects == MessageEffects(MessageAt(s.logs, w.p, w.o), w.fails);
    assert next.passes[last] == Pass(w.p, w.o, w.fails, w.effects);
    assert IsPassOver(registry, next.logs, next.passes[last], w.p, w.o);
    assert DealtWith(registry, next, w.p, w.o);
  }

  lemma AppendKeepsWork(registry: Registry, s: State, e: Event)
    requires WorkInv(registry, s) && e.Append? && s.work.Busy?
    ensures WorkInv(registry, Step(registry, s, e))
  {
    var w := s.work;
    StepGrows(registry, s, e, w.p);
    assert MessageAt(Step(registry, s, e).logs, w.p, w.o) == MessageAt(s.logs, w.p, w.o);
  }

  lemma ReturnKeepsWork(registry: Registry, s: State)
    requires WorkInv(registry, s) && Working(registry, s)
    ensures WorkInv(registry, Step(registry, s, HandlerReturns))
  {
    var w := s.work;
    var m, h := MessageAt(s.logs, w.p, w.o), |w.fails|;
    WorkOnHandler(m, w, w.attempt);
    assert FailuresEffects(m, h + 1, 0) == [];
    assert MessageEffects(m, w.fails) + FailuresEffects(m, h, w.attempt) + [Called(h, true)]
           == MessageEffects(m, w.fails) + HandlerEffects(m, h, w.attempt) + [];
  }

  lemma RaiseKeepsWork(registry: Registry, s: State)
    requires WorkInv(registry, s) && Working(registry, s)
    ensures WorkInv(registry, Step(registry, s, HandlerRaises))
  {
    var w := s.work;
    var m, h := MessageAt(s.logs, w.p, w.o), |w.fails|;
    var effects := w.effects + FailureEffects(m, h, w.attempt);
    assert effects == MessageEffects(m, w.fails) + FailuresEffects(m, h, w.attempt + 1);
    if w.attempt + 1 == MAX_RETRIES {
      WorkOnHandler(m, w, MAX_RETRIES);
      assert FailuresEffects(m, h + 1, 0) == [];
      assert effects == MessageEffects(m, w.fails) + HandlerEffects(m, h, MAX_RETRIES) + [];
    }
  }

  lemma StepKeepsWork(registry: Registry, s: State, e: Event)
    requires WorkInv(registry, s)
    ensures WorkInv(registry, Step(registry, s, e))
  {
    if e.Append? && s.work.Busy? {
      AppendKeepsWork(registry, s, e);
    } else if e.HandlerReturns? && Working(registry, s) {
      ReturnKeepsWork(registry, s);
    } else if e.HandlerRaises? && Working(registry, s) {
      RaiseKeepsWork(registry, s);
    }
  }

  lemma WorkOnHandler(m: Message, w: Work, fails: nat)
    requires w.Busy? && FailCounts(w.fails) && fails <= MAX_RETRIES
    ensures FailCounts(w.fails + [fails])
    ensures MessageEffects(m, w.fails + [fails]) == MessageEffects(m, w.fails) + HandlerEffects(m, |w.fails|, fails)
  {
    assert (w.fails + [fails])[..|w.fails|] == w.fails;
  }

  lemma StepKeepsInv(registry: Registry, s: State, e: Event)
    requires Inv(registry, s)
    ensures Inv(registry, Step(registry, s, e))
  {
    var next := Step(registry, s, e);
    StepKeepsWork(registry, s, e);
    forall p
      ensures AllBelow(registry, next, p, OffsetIn(next.committed, p))
      ensures AllBelow(registry, next, p, OffsetIn(next.position, p))
    {
      StepKeepsOffsets(registry, s, e, p);
    }
    forall i | 0 <= i < |next.requests|
      ensures AllBelow(registry, next, next.requests[i].p, next.requests[i].next)
    {
      StepKeepsRequest(registry, s, e, i);
    }
  }

  lemma StepKeepsOffsets(registry: Registry, s: State, e: Event, p: Partition)
    requires Inv(registry, s)
    ensures var next := Step(registry, s, e);
            && AllBelow(registry, next, p, OffsetIn(next.committed, p))
            && AllBelow(registry, next, p, OffsetIn(next.position, p))
  {
    var next := Step(registry, s, e);
    StepGrows(registry, s, e, p);
    AllBelowGrows(registry, s, next, p, OffsetIn(s.committed, p));
    AllBelowGrows(registry, s, next, p, OffsetIn(s.position, p));
    if e.RequestCommit? && Finished(registry, s) {
      FinishedDealtWith(registry, s);
    }
    if e.BrokerApplies? && e.i < |s.requests| && s.requests[e.i].p == p {
      AllBelowGrows(registry, s, next, p, s.requests[e.i].next);
    }
  }

  /** Where a request of the next state comes from. */
  lemma RequestOrigin(registry: Registry, s: State, e: Event, i: nat)
    requires i < |Step(registry, s, e).requests|
    ensures var r := Step(registry, s, e).requests[i];
            || r in s.requests
            || (e.RequestCommit? && Finished(registry, s) && r == CommitRequest(s.work.p, s.work.o + 1))
  {
  }

  lemma StepKeepsRequest(registry: Registry, s: State, e: Event, i: nat)
    requires Inv(registry, s) && i < |Step(registry, s, e).requests|
    ensures var next := Step(registry, s, e);
            AllBelow(registry, next, next.requests[i].p, next.requests[i].next)
  {
    var next := Step(registry, s, e);
    var r := next.requests[i];
    RequestOrigin(registry, s, e, i);
    if r in s.requests {
      StepGrows(registry, s, e, r.p);
      AllBelowGrows(registry, s, next, r.p, r.next);
    } else {
      FinishedDealtWith(registry, s);
    }
  }

  lemma {:induction false} RunKeepsInv(registry: Registry, s: State, es: seq<Event>)
    requires Inv(registry, s)
    ensures Inv(registry, Run(registry, s, es))
    decreases |es|
  {
    if es == [] {
    } else {
      StepKeepsInv(registry, s, es[0]);
      RunKeepsInv(registry, Step(registry, s, es[0]), es[1..]);
    }
  }

  // ---------------------------------------------------------------------------------------------
  // The guarantees.

  /** In this pass the handler returned, or it raised three times and a dead letter for the message went out. */
  ghost predicate HandlerServed(pass: Pass, h: nat) {
    || (Returns(pass.effects, h) == 1 && 1 <= Calls(pass.effects, h) <= MAX_RETRIES)
    || (Returns(pass.effects, h) == 0 && Calls(pass.effects, h) == MAX_RETRIES
        && DeadLettered(AUDIT_LOG, pass.p.topic, pass.p.index, pass.o) in pass.effects)
  }

  lemma ExhaustedHandler(m: Message, h: nat)
    ensures DeadLetter(m) in HandlerEffects(m, h, MAX_RETRIES)
  {
    var es := FailuresEffects(m, h, MAX_RETRIES);
    assert es == FailuresEffects(m, h, 2) + FailureEffects(m, h, 2);
    assert DeadLetter(m) == FailureEffects(m, h, 2)[1];
    assert HandlerEffects(m, h, MAX_RETRIES) == es + [];
  }

  lemma {:induction false} ExhaustedLeavesDeadLetter(m: Message, fails: seq<nat>, h: nat)
    requires FailCounts(fails) && h < |fails| && fails[h] == MAX_RETRIES
    ensures DeadLetter(m) in MessageEffects(m, fails)
    decreases |fails|
  {
    var last := |fails| - 1;
    if h == last {
      ExhaustedHandler(m, last);
    } else {
      ExhaustedLeavesDeadLetter(m, fails[..last], h);
    }
  }

  /**
   At-least-once. In every run, whatever crashes and however late commits are applied, each offset below a
   partition's committed offset was worked through in some pass: it holds no event, or no handler is
   registered for it, or every one of its handlers returned, or was called three times and dead-lettered.
   */
  lemma AtLeastOnce(registry: Registry, es: seq<Event>, p: Partition, o: nat)
    requires o < OffsetIn(Run(registry, START, es).committed, p)
    ensures var s := Run(registry, START, es);
            && o < |LogOf(s.logs, p)|
            && var body := LogOf(s.logs, p)[o];
               && !body.NotAnEvent?
               && exists pass ::
                    && pass in s.passes && IsPassOver(registry, s.logs, pass, p, o)
                    && (forall h: nat | h < |HandlersFor(registry, body)| :: HandlerServed(pass, h))
  {
    RunKeepsInv(registry, START, es);
    var s := Run(registry, START, es);
    assert AllBelow(registry, s, p, OffsetIn(s.committed, p));
    assert DealtWith(registry, s, p, o);
    var i: nat :| i < |s.passes| && IsPassOver(registry, s.logs, s.passes[i], p, o);
    var pass := s.passes[i];
    var m := MessageAt(s.logs, p, o);
    forall h: nat | h < |HandlersFor(registry, m.body)|
      ensures HandlerServed(pass, h)
    {
      MessageCounts(m, pass.fails, h);
      if pass.fails[h] == MAX_RETRIES {
        ExhaustedLeavesDeadLetter(m, pass.fails, h);
      }
    }
    assert pass in s.passes;
  }

  /** A message on which the lookup raises is never passed: the partition stops at its offset for good. */
  lemma NotAnEventStopsPartition(registry: Registry, es: seq<Event>, p: Partition, o: nat)
    requires var s := Run(registry, START, es);
             o < |LogOf(s.logs, p)| && LogOf(s.logs, p)[o].NotAnEvent?
    ensures OffsetIn(Run(registry, START, es).committed, p) <= o
  {
    if OffsetIn(Run(registry, START, es).committed, p) > o {
      AtLeastOnce(registry, es, p, o);
    }
  }

  /**
   Such a message takes the consumer down; started again, it is back at the committed offset with nothing done.
   While a message is being worked on, or when none is left, nothing is polled.
   */
  lemma NotAnEventTakesDown(registry: Registry, s: State, p: Partition)
    ensures var polled := Run(registry, s, [PollMessage(p)]);
            var restarted := Run(registry, s, [PollMessage(p), Restart]);
            if s.up && s.work.Idle? && OffsetIn(s.position, p) < |LogOf(s.logs, p)|
               && LogOf(s.logs, p)[OffsetIn(s.position, p)].NotAnEvent?
            then polled == s.(up := false, position := map[], work := Idle)
                 && restarted == s.(up := true, position := s.committed, work := Idle)
            else if !s.up || s.work.Busy? || OffsetIn(s.position, p) >= |LogOf(s.logs, p)| then polled == s
            else polled.up && polled.work.Busy?
  {
    var polled := Step(registry, s, PollMessage(p));
    RunOne(registry, s, PollMessage(p));
    RunOne(registry, polled, Restart);
    assert [PollMessage(p), Restart][1..] == [Restart];
  }

  // ---------------------------------------------------------------------------------------------
  // An uninterrupted pass, as the method ProcessMessage makes it.

  /** The steps of one handler from attempt a on, if it fails `fails` times in all. */
  function HandlerEvents(a: nat, fails: nat): seq<Event>
    requires a <= fails <= MAX_RETRIES
    decreases fails - a
  {
    if a < fails then [HandlerRaises] + HandlerEvents(a + 1, fails)
    else if fails < MAX_RETRIES then [HandlerReturns]
    else []
  }

  function MessageEvents(fails: seq<nat>): seq<Event>
    requires FailCounts(fails)
    decreases |fails|
  {
    if fails == [] then [] else HandlerEvents(0, fails[0]) + MessageEvents(fails[1..])
  }

  lemma {:induction false} RunConcat(registry: Registry, s: State, es: seq<Event>, fs: seq<Event>)
    ensures Run(registry, s, es + fs) == Run(registry, Run(registry, s, es), fs)
    decreases |es|
  {
    if es == [] {
      assert es + fs == fs;
    } else {
      assert (es + fs)[1..] == es[1..] + fs;
      RunConcat(registry, Step(registry, s, es[0]), es[1..], fs);
    }
  }

  lemma RunOne(registry: Registry, s: State, e: Event)
    ensures Run(registry, s, [e]) == Step(registry, s, e)
  {
    assert Run(registry, Step(registry, s, e), [e][1..]) == Step(registry, s, e);
  }

  /** Only the work has changed, and it is on the next handler. */
  ghost predicate HandlerDone(s: State, t: State, fails: nat) {
    && t == s.(work := t.work) && s.work.Busy? && t.work.Busy?
    && t.work.p == s.work.p && t.work.o == s.work.o && t.work.attempt == 0
    && t.work.fails == s.work.fails + [fails]
  }

  lemma {:induction false} RunHandler(registry: Registry, s: State, fails: nat)
    requires Working(registry, s) && s.work.attempt <= fails <= MAX_RETRIES
    ensures HandlerDone(s, Run(registry, s, HandlerEvents(s.work.attempt, fails)), fails)
    decreases fails - s.work.attempt
  {
    var a := s.work.attempt;
    if a == fails {
      RunOne(registry, s, HandlerReturns);
    } else {
      var next := Step(registry, s, HandlerRaises);
      assert HandlerEvents(a, fails)[1..] == HandlerEvents(a + 1, fails);
      if a + 1 < MAX_RETRIES {
        RunHandler(registry, next, fails);
      }
    }
  }

  lemma {:induction false} RunHandlers(registry: Registry, s: State, fails: seq<nat>)
    requires s.up && s.work.Busy? && s.work.o < |LogOf(s.logs, s.work.p)| && s.work.attempt == 0 && FailCounts(fails)
    requires |s.work.fails| + |fails| == Needed(registry, LogOf(s.logs, s.work.p)[s.work.o])
    ensures var t := Run(registry, s, MessageEvents(fails));
            && t == s.(work := t.work) && t.work.Busy? && t.work.p == s.work.p && t.work.o == s.work.o
            && t.work.attempt == 0 && t.work.fails == s.work.fails + fails
    decreases |fails|
  {
    if fails == [] {
      assert s.work.fails + fails == s.work.fails;
    } else {
      RunHandler(registry, s, fails[0]);
      var next := Run(registry, s, HandlerEvents(0, fails[0]));
      RunHandlers(registry, next, fails[1..]);
      RunConcat(registry, s, HandlerEvents(0, fails[0]), MessageEvents(fails[1..]));
      assert s.work.fails + [fails[0]] + fails[1..] == s.work.fails + fails;
    }
  }

  /** The work done on a finished message is what the specification says. */
  lemma FinishedEffects(registry: Registry, s: State)
    requires WorkInv(registry, s) && Finished(registry, s) && s.work.attempt == 0
    ensures s.work.effects == MessageEffects(MessageAt(s.logs, s.work.p, s.work.o), s.work.fails)
  {
    assert FailuresEffects(MessageAt(s.logs, s.work.p, s.work.o), |s.work.fails|, 0) == [];
  }

  /** A message has been polled and none of its handlers has been called. */
  ghost predicate Polled(s: State, p: Partition, o: nat) {
    s.up && s.work == Busy(p, o, [], 0, []) && o < |LogOf(s.logs, p)|
  }

  lemma RunFromPolled(registry: Registry, s: State, p: Partition, o: nat, fails: seq<nat>)
    requires Inv(registry, s) && Polled(s, p, o)
    requires |fails| == Needed(registry, LogOf(s.logs, p)[o]) && FailCounts(fails)
    ensures var t := Run(registry, s, MessageEvents(fails));
            && t == s.(work := Busy(p, o, fails, 0, MessageEffects(MessageAt(s.logs, p, o), fails)))
            && Finished(registry, t)
  {
    RunHandlers(registry, s, fails);
    assert [] + fails == fails;
    RunKeepsInv(registry, s, MessageEvents(fails));
    FinishedEffects(registry, Run(registry, s, MessageEvents(fails)));
  }

  lemma PollStarts(registry: Registry, s: State, p: Partition)
    requires s.up && s.work.Idle? && OffsetIn(s.position, p) < |LogOf(s.logs, p)|
    requires !LogOf(s.logs, p)[OffsetIn(s.position, p)].NotAnEvent?
    ensures Step(registry, s, PollMessage(p)) == s.(work := Busy(p, OffsetIn(s.position, p), [], 0, []))
  {
  }

  lemma PollAndHandle(registry: Registry, s: State, p: Partition, fails: seq<nat>)
    requires Inv(registry, s) && s.up && s.work.Idle? && OffsetIn(s.position, p) < |LogOf(s.logs, p)|
    requires var body := LogOf(s.logs, p)[OffsetIn(s.position, p)];
             !body.NotAnEvent? && |fails| == Needed(registry, body) && FailCounts(fails)
    ensures var o := OffsetIn(s.position, p);
            var t := Run(registry, s, [PollMessage(p)] + MessageEvents(fails));
            && t == s.(work := Busy(p, o, fails, 0, MessageEffects(MessageAt(s.logs, p, o), fails)))
            && Finished(registry, t)
  {
    PollStarts(registry, s, p);
    StepKeepsInv(registry, s, PollMessage(p));
    RunFromPolled(registry, Step(registry, s, PollMessage(p)), p, OffsetIn(s.position, p), fails);
    RunOne(registry, s, PollMessage(p));
    RunConcat(registry, s, [PollMessage(p)], MessageEvents(fails));
  }

  /**
   A pass that nothing interrupts does what the method ProcessMessage does for handlers that fail that often,
   moves the position on by one and leaves one commit request.
   */
  lemma UninterruptedPass(registry: Registry, s: State, p: Partition, fails: seq<nat>)
    requires Inv(registry, s) && s.up && s.work.Idle? && OffsetIn(s.position, p) < |LogOf(s.logs, p)|
    requires var body := LogOf(s.logs, p)[OffsetIn(s.position, p)];
             !body.NotAnEvent? && |fails| == Needed(registry, body) && FailCounts(fails)
    ensures var o := OffsetIn(s.position, p);
            Run(registry, s, [PollMessage(p)] + MessageEvents(fails) + [RequestCommit])
            == s.(position := s.position[p := o + 1],
                  requests := s.requests + [CommitRequest(p, o + 1)],
                  passes := s.passes + [Pass(p, o, fails, MessageEffects(MessageAt(s.logs, p, o), fails))])
  {
    var o := OffsetIn(s.position, p);
    var events := [PollMessage(p)] + MessageEvents(fails);
    PollAndHandle(registry, s, p, fails);
    RunConcat(registry, s, events, [RequestCommit]);
    CommitFinished(registry, s, Busy(p, o, fails, 0, MessageEffects(MessageAt(s.logs, p, o), fails)));
  }

  lemma CommitFinished(registry: Registry, s: State, w: Work)
    requires w.Busy? && s.work.Idle? && Finished(registry, s.(work := w))
    ensures Run(registry, s.(work := w), [RequestCommit])
            == s.(position := s.position[w.p := w.o + 1],
                  requests := s.requests + [CommitRequest(w.p, w.o + 1)],
                  passes := s.passes + [Pass(w.p, w.o, w.fails, w.effects)])
  {
    RunOne(registry, s.(work := w), RequestCommit);
  }

  /**
   Not exactly once: however its handlers behave, a message whose commit request was not applied before a crash
   is worked through again after the restart, from the committed offset.
   */
  lemma RedeliveredAfterCrash(registry: Registry, s: State, p: Partition, fails: seq<nat>, again: seq<nat>)
    requires Inv(registry, s) && s.up && s.work.Idle?
    requires OffsetIn(s.position, p) == OffsetIn(s.committed, p) < |LogOf(s.logs, p)|
    requires var body := LogOf(s.logs, p)[OffsetIn(s.position, p)];
             !body.NotAnEvent? && |fails| == |again| == Needed(registry, body) && FailCounts(fails) && FailCounts(again)
    ensures var o := OffsetIn(s.position, p);
            var t := Run(registry, s, [PollMessage(p)] + MessageEvents(fails) + [RequestCommit] + [Crash, Restart]
                                      + ([PollMessage(p)] + MessageEvents(again) + [RequestCommit]));
            var m := MessageAt(s.logs, p, o);
            t.passes == s.passes + [Pass(p, o, fails, MessageEffects(m, fails)), Pass(p, o, again, MessageEffects(m, again))]
  {
    var first := [PollMessage(p)] + MessageEvents(fails) + [RequestCommit];
    var second := [PollMessage(p)] + MessageEvents(again) + [RequestCommit];
    UninterruptedPass(registry, s, p, fails);
    RunKeepsInv(registry, s, first);
    var t := Run(registry, s, first);
    CrashAndRestart(registry, t);
    RunKeepsInv(registry, t, [Crash, Restart]);
    UninterruptedPass(registry, Run(registry, t, [Crash, Restart]), p, again);
    RunConcat(registry, s, first, [Crash, Restart]);
    RunConcat(registry, s, first + [Crash, Restart], second);
  }

  lemma CrashAndRestart(registry: Registry, s: State)
    ensures Run(registry, s, [Crash, Restart]) == s.(up := true, position := s.committed, work := Idle)
  {
    RunOne(registry, s, Crash);
    RunConcat(registry, s, [Crash], [Restart]);
    RunOne(registry, Step(registry, s, Crash), Restart);
    assert [Crash] + [Restart] == [Crash, Restart];
  }

  /** Once the commit has been applied, a crash goes back to the message after it. */
  lemma AppliedCommitStands(registry: Registry, s: State, p: Partition, fails: seq<nat>)
    requires Inv(registry, s) && s.up && s.work.Idle? && OffsetIn(s.position, p) < |LogOf(s.logs, p)|
    requires var body := LogOf(s.logs, p)[OffsetIn(s.position, p)];
             !body.NotAnEvent? && |fails| == Needed(registry, body) && FailCounts(fails)
    ensures var o := OffsetIn(s.position, p);
            var pass := [PollMessage(p)] + MessageEvents(fails) + [RequestCommit];
            var t := Run(registry, s, pass + [BrokerApplies(|s.requests|)] + [Crash, Restart]);
            && OffsetIn(t.committed, p) == OffsetIn(t.position, p) == o + 1
            && (forall q | q != p :: OffsetIn(t.committed, q) == OffsetIn(s.committed, q))
            && t.requests == s.requests && t.up && t.work.Idle? && t.logs == s.logs
  {
    var o := OffsetIn(s.position, p);
    var pass := [PollMessage(p)] + MessageEvents(fails) + [RequestCommit];
    var apply := [BrokerApplies(|s.requests|)];
    UninterruptedPass(registry, s, p, fails);
    var done := Run(registry, s, pass);
    RunOne(registry, done, apply[0]);
    RunConcat(registry, s, pass, apply);
    RunConcat(registry, s, pass + apply, [Crash, Restart]);
    CrashAndRestart(registry, Step(registry, done, apply[0]));
    assert Step(registry, done, apply[0]).requests == s.requests;
  }

  /** The bodies that a run appends to a partition. */
  function Appended(es: seq<Event>, p: Partition): seq<Body> {
    if es == [] then []
    else (if es[0].Append? && es[0].p == p then [es[0].body] else []) + Appended(es[1..], p)
  }

  /** Nothing but an append changes a log, and it adds at the end. */
  lemma {:induction false} LogIsWhatWasAppended(registry: Registry, s: State, es: seq<Event>, p: Partition)
    ensures LogOf(Run(registry, s, es).logs, p) == LogOf(s.logs, p) + Appended(es, p)
    decreases |es|
  {
    if es == [] {
    } else {
      LogAfterStep(registry, s, es[0], p);
      LogIsWhatWasAppended(registry, Step(registry, s, es[0]), es[1..], p);
    }
  }

  lemma LogAfterStep(registry: Registry, s: State, e: Event, p: Partition)
    ensures LogOf(Step(registry, s, e).logs, p) == LogOf(s.logs, p) + Appended([e], p)
  {
    assert [e][1..] == [];
  }
}
