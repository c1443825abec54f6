/**
 KafkaConsumerService: the handler registry, the retry loop around each handler, the dead letter queue and
 the manual commit. What it does to the outside world is recorded as a list of effects.

 Whether a call of a handler returns or raises is a parameter: ok(h, a) says it for the a-th attempt on the
 h-th handler of the message's type.
 */
module Kafka {
  const MAX_RETRIES: nat := 3
  const RETRY_BACKOFF_S: seq<nat> := [1, 5, 15]
  const DLQ_EVENT_TYPE := "dlq.failed"
  const AUDIT_LOG := "AUDIT_LOG"

  /**
   What decoding a message gives: bytes that are no JSON text, a JSON value on which the lookup of the event
   type or of its handlers raises, or an event ("unknown" if it names no type).
   */
  datatype Body = Malformed | NotAnEvent | Event(eventType: string)

  datatype Message = Message(topic: string, partition: nat, offset: nat, body: Body)

  datatype Effect =
    | Called(handler: nat, returned: bool)
    | Slept(seconds: nat)
    | DeadLettered(topicKey: string, topic: string, partition: nat, offset: nat)
    | CommitRequested(topic: string, partition: nat, offset: nat)

  type Registry = map<string, seq<string>>

  function HandlersFor(registry: Registry, body: Body): seq<string> {
    if body.Event? && body.eventType in registry then registry[body.eventType] else []
  }

  /** How many handlers the message needs. */
  function Needed(registry: Registry, body: Body): nat {
    |HandlersFor(registry, body)|
  }

  function DeadLetter(m: Message): Effect {
    DeadLettered(AUDIT_LOG, m.topic, m.partition, m.offset)
  }

  function Commit(m: Message): Effect {
    CommitRequested(m.topic, m.partition, m.offset)
  }

  // ---------------------------------------------------------------------------------------------
  // The specification: what happens to a message whose h-th handler fails fails[h] times, at most three.

  /** The a-th failing call of a handler and what follows it. */
  function FailureEffects(m: Message, h: nat, a: nat): seq<Effect>
    requires a < MAX_RETRIES
  {
    [Called(h, false)] + if a + 1 < MAX_RETRIES then [Slept(RETRY_BACKOFF_S[a])] else [DeadLetter(m)]
  }

  /** The first n failing calls of a handler. */
  function FailuresEffects(m: Message, h: nat, n: nat): seq<Effect>
    requires n <= MAX_RETRIES
  {
    if n == 0 then [] else FailuresEffects(m, h, n - 1) + FailureEffects(m, h, n - 1)
  }

  function HandlerEffects(m: Message, h: nat, fails: nat): seq<Effect>
    requires fails <= MAX_RETRIES
  {
    FailuresEffects(m, h, fails) + if fails < MAX_RETRIES then [Called(h, true)] else []
  }

  predicate FailCounts(fails: seq<nat>) {
    forall h | 0 <= h < |fails| :: fails[h] <= MAX_RETRIES
  }

  function MessageEffects(m: Message, fails: seq<nat>): seq<Effect>
    requires FailCounts(fails)
  {
    if fails == [] then []
    else MessageEffects(m, fails[..|fails| - 1]) + HandlerEffects(m, |fails| - 1, fails[|fails| - 1])
  }

  /** How often the h-th handler fails from attempt a on: up to its first success, and no more than allowed. */
  function FailsFrom(ok: (nat, nat) -> bool, h: nat, a: nat): (n: nat)
    requires a <= MAX_RETRIES
    ensures a <= n <= MAX_RETRIES
    ensures forall b | a <= b < n :: !ok(h, b)
    ensures n < MAX_RETRIES ==> ok(h, n)
    decreases MAX_RETRIES - a
  {
    if a == MAX_RETRIES || ok(h, a) then a else FailsFrom(ok, h, a + 1)
  }

  function FailsOf(ok: (nat, nat) -> bool, handlers: nat): (fails: seq<nat>)
    ensures |fails| == handlers && FailCounts(fails)
    ensures forall h | 0 <= h < handlers :: fails[h] == FailsFrom(ok, h, 0)
  {
    seq(handlers, h requires h >= 0 => FailsFrom(ok, h, 0))
  }

  /** The whole of _process_message; nothing at all for a message on which it raises. */
  function ProcessEffects(registry: Registry, m: Message, ok: (nat, nat) -> bool): seq<Effect> {
    if m.body.NotAnEvent? then []
    else MessageEffects(m, FailsOf(ok, |HandlersFor(registry, m.body)|)) + [Commit(m)]
  }

  /** What one poll yields. */
  datatype Poll = Nothing | BrokerError | Polled(m: Message)

  predicate RaisesOn(poll: Poll) {
    poll.Polled? && poll.m.body.NotAnEvent?
  }

  function PollEffects(registry: Registry, poll: Poll, ok: (nat, nat) -> bool): seq<Effect> {
    if poll.Polled? then ProcessEffects(registry, poll.m, ok) else []
  }

  /** The effects of the consumer loop on its first n polls; ok(i) is how the handlers behave on the i-th. */
  function LoopEffects(registry: Registry, polls: seq<Poll>, ok: nat -> (nat, nat) -> bool, n: nat): seq<Effect>
    requires n <= |polls|
  {
    if n == 0 then []
    else
      LoopEffects(registry, polls, ok, n - 1)
      + PollEffects(registry, polls[n - 1], ok(n - 1))
  }

  lemma NextHandler(m: Message, fails: seq<nat>, h: nat)
    requires FailCounts(fails) && h < |fails|
    ensures MessageEffects(m, fails[..h + 1]) == MessageEffects(m, fails[..h]) + HandlerEffects(m, h, fails[h])
  {
    assert fails[..h + 1][..h] == fails[..h];
  }

  lemma NextPoll(registry: Registry, polls: seq<Poll>, ok: nat -> (nat, nat) -> bool, n: nat, before: seq<Effect>)
    requires n < |polls|
    ensures before + LoopEffects(registry, polls, ok, n + 1)
            == before + LoopEffects(registry, polls, ok, n) + PollEffects(registry, polls[n], ok(n))
  {
    var done, next := LoopEffects(registry, polls, ok, n), PollEffects(registry, polls[n], ok(n));
    assert before + (done + next) == before + done + next;
  }

  // ---------------------------------------------------------------------------------------------
  // The consumer.

  class KafkaConsumerService {
    var handlers: Registry
    var running: bool
    var effects: seq<Effect>

    constructor ()
      ensures handlers == map[] && !running && effects == []
    {
      handlers, running, effects := map[], false, [];
    }

    method RegisterHandler(eventType: string, handler: string)
      modifies this`handlers
      ensures handlers == old(handlers)[
                            eventType := (if eventType in old(handlers) then old(handlers)[eventType] else []) + [handler]]
    {
      if eventType !in handlers {
        handlers := handlers[eventType := []];
      }
      handlers := handlers[eventType := handlers[eventType] + [handler]];
    }

    method SendToDlq(m: Message)
      modifies this`effects
      ensures effects == old(effects) + [DeadLetter(m)]
    {
      effects := effects + [DeadLettered(AUDIT_LOG, m.topic, m.partition, m.offset)];
    }

    /** The while loop around one handler. */
    method CallWithRetry(m: Message, h: nat, ok: (nat, nat) -> bool)
      modifies this`effects
      ensures effects == old(effects) + HandlerEffects(m, h, FailsFrom(ok, h, 0))
    {
      var attempt: nat := 0;
      while attempt < MAX_RETRIES
        invariant attempt <= MAX_RETRIES
        invariant FailsFrom(ok, h, 0) == FailsFrom(ok, h, attempt)
        invariant effects == old(effects) + FailuresEffects(m, h, attempt)
      {
        if ok(h, attempt) {
          effects := effects + [Called(h, true)];
          return;
        }
        effects := effects + [Called(h, false)];
        attempt := attempt + 1;
        if attempt < MAX_RETRIES {
          effects := effects + [Slept(RETRY_BACKOFF_S[attempt - 1])];
        } else {
          SendToDlq(m);
        }
      }
    }

    /** _process_message */
    method ProcessMessage(m: Message, ok: (nat, nat) -> bool) returns (raised: bool)
      modifies this`effects
      ensures raised <==> m.body.NotAnEvent?
      ensures effects == old(effects) + ProcessEffects(handlers, m, ok)
      ensures if raised then effects == old(effects)
              else effects != [] && effects[|effects| - 1] == CommitRequested(m.topic, m.partition, m.offset)
      ensures Unhandled(handlers, m.body) ==> effects == old(effects) + [CommitRequested(m.topic, m.partition, m.offset)]
    {
      ProcessEndsInCommit(handlers, m, ok);
      if m.body.NotAnEvent? {
        return true;
      }
      if m.body.Malformed? {
        effects := effects + [Commit(m)];
        return false;
      }
      var registered := HandlersFor(handlers, m.body);
      if registered == [] {
        effects := effects + [Commit(m)];
        return false;
      }
      CallHandlers(m, |registered|, ok);
      effects := effects + [Commit(m)];
      return false;
    }

    /** The for loop over the handlers. */
    method CallHandlers(m: Message, n: nat, ok: (nat, nat) -> bool)
      modifies this`effects
      ensures effects == old(effects) + MessageEffects(m, FailsOf(ok, n))
    {
      ghost var fails := FailsOf(ok, n);
      for h := 0 to n
        invariant effects == old(effects) + MessageEffects(m, fails[..h])
      {
        CallWithRetry(m, h, ok);
        NextHandler(m, fails, h);
      }
      assert fails[..n] == fails;
    }

    /** start, on the polls it makes before it is stopped; `handled` is how many of them it gets through. */
    method Start(polls: seq<Poll>, ok: nat -> (nat, nat) -> bool) returns (handled: nat, raised: bool)
      modifies this`running, this`effects
      ensures handled <= |polls|
      ensures effects == old(effects) + LoopEffects(handlers, polls, ok, handled)
      ensures if raised then handled < |polls| && RaisesOn(polls[handled]) else handled == |polls|
      ensures forall i | 0 <= i < handled :: !RaisesOn(polls[i])
    {
      running := true;
      handled, raised := 0, false;
      ghost var registry, before := handlers, effects;
      assert effects == before + [];
      while running && handled < |polls|
        invariant running && !raised && handled <= |polls| && handlers == registry
        invariant effects == before + LoopEffects(registry, polls, ok, handled)
        invariant forall i | 0 <= i < handled :: !RaisesOn(polls[i])
        decreases |polls| - handled
      {
        raised := Round(polls, ok, handled, before);
        if raised {
          break;
        }
        handled := handled + 1;
      }
    }

    /** The n-th round of the loop. */
    method Round(polls: seq<Poll>, ok: nat -> (nat, nat) -> bool, n: nat, ghost before: seq<Effect>)
      returns (raised: bool)
      requires n < |polls| && effects == before + LoopEffects(handlers, polls, ok, n)
      modifies this`effects
      ensures raised <==> RaisesOn(polls[n])
      ensures effects == before + LoopEffects(handlers, polls, ok, if raised then n else n + 1)
    {
      NextPoll(handlers, polls, ok, n, before);
      raised := false;
      if polls[n].Polled? {
        raised := ProcessMessage(polls[n].m, ok(n));
      }
    }

    method Stop()
      modifies this`running
      ensures !running
    {
      running := false;
    }
  }

  /** The registry that register_all_handlers builds. */
  const ALL_HANDLERS: Registry := map[
    "service.request.created" := ["handle_service_request_created"],
    "voice.session.completed" := ["handle_voice_session_completed"],
    "notification" := ["handle_notification"],
    "audit.log" := ["handle_audit_log"]
  ]

  method RegisterAllHandlers(consumer: KafkaConsumerService)
    requires consumer.handlers == map[]
    modifies consumer`handlers
    ensures consumer.handlers == ALL_HANDLERS
  {
    consumer.RegisterHandler("service.request.created", "handle_service_request_created");
    assert [] + ["handle_service_request_created"] == ["handle_service_request_created"];
    consumer.RegisterHandler("voice.session.completed", "handle_voice_session_completed");
    consumer.RegisterHandler("notification", "handle_notification");
    consumer.RegisterHandler("audit.log", "handle_audit_log");
    assert [] + ["handle_voice_session_completed"] == ["handle_voice_session_completed"];
    assert [] + ["handle_notification"] == ["handle_notification"];
    assert [] + ["handle_audit_log"] == ["handle_audit_log"];
  }

  /** Of the event types that the code publishes only one has a handler; the others are committed unseen. */
  lemma PublishedTypesWithHandlers(t: string)
    requires t in {"voice.session", "service.request", "notification", DLQ_EVENT_TYPE}
    ensures HandlersFor(ALL_HANDLERS, Event(t)) != [] <==> t == "notification"
  {
  }

  // ---------------------------------------------------------------------------------------------
  // What the specification means.

  function Calls(effects: seq<Effect>, h: nat): nat {
    if effects == [] then 0 else (if effects[0].Called? && effects[0].handler == h then 1 else 0) + Calls(effects[1..], h)
  }

  function Returns(effects: seq<Effect>, h: nat): nat {
    if effects == [] then 0 else (if effects[0] == Called(h, true) then 1 else 0) + Returns(effects[1..], h)
  }

  function DeadLetters(effects: seq<Effect>): nat {
    if effects == [] then 0 else (if effects[0].DeadLettered? then 1 else 0) + DeadLetters(effects[1..])
  }

  function SleepTime(effects: seq<Effect>): nat {
    if effects == [] then 0 else (if effects[0].Slept? then effects[0].seconds else 0) + SleepTime(effects[1..])
  }

  lemma {:induction false} CountsAppend(xs: seq<Effect>, ys: seq<Effect>, h: nat)
    ensures Calls(xs + ys, h) == Calls(xs, h) + Calls(ys, h)
    ensures Returns(xs + ys, h) == Returns(xs, h) + Returns(ys, h)
    ensures DeadLetters(xs + ys) == DeadLetters(xs) + DeadLetters(ys)
    ensures SleepTime(xs + ys) == SleepTime(xs) + SleepTime(ys)
  {
    if xs == [] {
      assert xs + ys == ys;
    } else {
      assert (xs + ys)[1..] == xs[1..] + ys;
      CountsAppend(xs[1..], ys, h);
    }
  }

  function SleepAfter(fails: nat): nat {
    if fails == 0 then 0 else if fails == 1 then 1 else 6
  }

  lemma {:induction false} FailuresCounts(m: Message, h: nat, n: nat, other: nat)
    requires n <= MAX_RETRIES
    ensures var es := FailuresEffects(m, h, n);
            && Calls(es, other) == (if other == h then n else 0)
            && Returns(es, other) == 0
            && DeadLetters(es) == (if n == MAX_RETRIES then 1 else 0)
            && SleepTime(es) == SleepAfter(n)
    decreases n
  {
    if n == 0 {
    } else {
      FailuresCounts(m, h, n - 1, other);
      var last := FailureEffects(m, h, n - 1);
      CountsAppend(FailuresEffects(m, h, n - 1), last, other);
      CountsAppend([last[0]], [last[1]], other);
      assert last == [last[0]] + [last[1]];
    }
  }

  lemma HandlerCounts(m: Message, h: nat, fails: nat, other: nat)
    requires fails <= MAX_RETRIES
    ensures var es := HandlerEffects(m, h, fails);
            && Calls(es, other) == (if other != h then 0 else if fails < MAX_RETRIES then fails + 1 else MAX_RETRIES)
            && Returns(es, other) == (if other == h && fails < MAX_RETRIES then 1 else 0)
            && DeadLetters(es) == (if fails == MAX_RETRIES then 1 else 0)
            && SleepTime(es) == SleepAfter(fails) <= 6
  {
    FailuresCounts(m, h, fails, other);
    CountsAppend(FailuresEffects(m, h, fails), if fails < MAX_RETRIES then [Called(h, true)] else [], other);
  }

  /** How many handlers used up their attempts. */
  function Exhausted(fails: seq<nat>): (n: nat)
    ensures n <= |fails|
  {
    if fails == [] then 0
    else Exhausted(fails[..|fails| - 1]) + if fails[|fails| - 1] == MAX_RETRIES then 1 else 0
  }

  /**
   The retry loop as a fold: every handler is called, up to its first success or three times; it returns
   once or not at all; one dead letter goes out for each handler that never returned, and the sleeps are at
   most six seconds for each handler.
   */
  lemma {:induction false} MessageCounts(m: Message, fails: seq<nat>, h: nat)
    requires FailCounts(fails)
    ensures var es := MessageEffects(m, fails);
            && Calls(es, h) == (if h >= |fails| then 0 else if fails[h] < MAX_RETRIES then fails[h] + 1 else MAX_RETRIES)
            && Returns(es, h) == (if h < |fails| && fails[h] < MAX_RETRIES then 1 else 0)
            && DeadLetters(es) == Exhausted(fails)
            && SleepTime(es) <= 6 * |fails|
    decreases |fails|
  {
    if fails == [] {
    } else {
      var n := |fails| - 1;
      MessageCounts(m, fails[..n], h);
      HandlerCounts(m, n, fails[n], h);
      CountsAppend(MessageEffects(m, fails[..n]), HandlerEffects(m, n, fails[n]), h);
    }
  }

  /** What may be done for the handlers from lo up to hi: calls in that range, the two backoffs, dead letters of m. */
  ghost predicate EffectsWithin(es: seq<Effect>, m: Message, lo: nat, hi: nat) {
    forall e | e in es ::
      match e
      case Called(h, _) => lo <= h < hi
      case Slept(seconds) => seconds == 1 || seconds == 5
      case DeadLettered(_, _, _, _) => e == DeadLetter(m)
      case CommitRequested(_, _, _) => false
  }

  lemma {:induction false} FailuresWithin(m: Message, h: nat, n: nat)
    requires n <= MAX_RETRIES
    ensures EffectsWithin(FailuresEffects(m, h, n), m, h, h + 1)
    decreases n
  {
    if n == 0 {
    } else {
      FailuresWithin(m, h, n - 1);
    }
  }

  lemma HandlerWithin(m: Message, h: nat, fails: nat)
    requires fails <= MAX_RETRIES
    ensures EffectsWithin(HandlerEffects(m, h, fails), m, h, h + 1)
  {
    FailuresWithin(m, h, fails);
  }

  lemma WithinAppend(xs: seq<Effect>, ys: seq<Effect>, m: Message, lo: nat, mid: nat, hi: nat)
    requires lo <= mid <= hi && EffectsWithin(xs, m, lo, mid) && EffectsWithin(ys, m, mid, hi)
    ensures EffectsWithin(xs + ys, m, lo, hi)
  {
    forall e | e in xs + ys
      ensures EffectsWithin([e], m, lo, hi)
    {
      assert e in xs || e in ys;
    }
    assert forall e | e in xs + ys :: e in [e];
  }

  /** The effects of the handlers from the n-th on. */
  function EffectsAfter(m: Message, fails: seq<nat>, n: nat): seq<Effect>
    requires FailCounts(fails) && n <= |fails|
    decreases |fails|
  {
    if n == |fails| then []
    else EffectsAfter(m, fails[..|fails| - 1], n) + HandlerEffects(m, |fails| - 1, fails[|fails| - 1])
  }

  lemma {:induction false} MessageWithin(m: Message, fails: seq<nat>)
    requires FailCounts(fails)
    ensures EffectsWithin(MessageEffects(m, fails), m, 0, |fails|)
    decreases |fails|
  {
    if fails == [] {
    } else {
      var n := |fails| - 1;
      MessageWithin(m, fails[..n]);
      HandlerWithin(m, n, fails[n]);
      WithinAppend(MessageEffects(m, fails[..n]), HandlerEffects(m, n, fails[n]), m, 0, n, n + 1);
    }
  }

  lemma {:induction false} AfterWithin(m: Message, fails: seq<nat>, n: nat)
    requires FailCounts(fails) && n <= |fails|
    ensures EffectsWithin(EffectsAfter(m, fails, n), m, n, |fails|)
    decreases |fails|
  {
    if n == |fails| {
    } else {
      var last := |fails| - 1;
      AfterWithin(m, fails[..last], n);
      HandlerWithin(m, last, fails[last]);
      WithinAppend(EffectsAfter(m, fails[..last], n), HandlerEffects(m, last, fails[last]), m, n, last, last + 1);
    }
  }

  lemma {:induction false} CutAtHandler(m: Message, fails: seq<nat>, n: nat)
    requires FailCounts(fails) && n <= |fails|
    ensures MessageEffects(m, fails) == MessageEffects(m, fails[..n]) + EffectsAfter(m, fails, n)
    decreases |fails|
  {
    if n == |fails| {
      assert fails[..n] == fails;
    } else {
      var last := |fails| - 1;
      CutAtHandler(m, fails[..last], n);
      assert fails[..last][..n] == fails[..n];
    }
  }

  /**
   Handlers run in registration order, each to its end before the next: cut at any handler, what comes before
   concerns earlier handlers only and what comes after later ones only. The third backoff is never used,
   every dead letter names the topic, partition and offset of the message, no commit comes in between.
   */
  lemma MessageOrder(m: Message, fails: seq<nat>, n: nat)
    requires FailCounts(fails) && n <= |fails|
    ensures MessageEffects(m, fails) == MessageEffects(m, fails[..n]) + EffectsAfter(m, fails, n)
    ensures EffectsWithin(MessageEffects(m, fails[..n]), m, 0, n)
    ensures EffectsWithin(EffectsAfter(m, fails, n), m, n, |fails|)
  {
    CutAtHandler(m, fails, n);
    MessageWithin(m, fails[..n]);
    AfterWithin(m, fails, n);
  }

  /** The only thing to do with such a message is to commit it. */
  predicate Unhandled(registry: Registry, body: Body) {
    body.Malformed? || (body.Event? && (body.eventType !in registry || registry[body.eventType] == []))
  }

  /**
   Every message that does not raise is committed, whatever becomes of its handlers: the commit of its own offset is
   the last thing done, there is no other, and nothing else is done exactly when the bytes are no JSON or no handler
   is registered.
   */
  lemma ProcessEndsInCommit(registry: Registry, m: Message, ok: (nat, nat) -> bool)
    ensures var es := ProcessEffects(registry, m, ok);
            if m.body.NotAnEvent? then es == []
            else
              && es != [] && es[|es| - 1] == CommitRequested(m.topic, m.partition, m.offset)
              && (forall i | 0 <= i < |es| - 1 :: !es[i].CommitRequested?)
              && (|es| == 1 <==> Unhandled(registry, m.body))
  {
    if m.body.NotAnEvent? {
    } else {
      var n := |HandlersFor(registry, m.body)|;
      var es := MessageEffects(m, FailsOf(ok, n));
      MessageWithin(m, FailsOf(ok, n));
      assert forall i | 0 <= i < |es| :: es[i] in es;
      if n > 0 {
        MessageCounts(m, FailsOf(ok, n), 0);
      }
    }
  }

  function CommitsOf(es: seq<Effect>): seq<Effect> {
    if es == [] then []
    else if es[0].CommitRequested? then [es[0]] + CommitsOf(es[1..])
    else CommitsOf(es[1..])
  }

  lemma {:induction false} CommitsAppend(xs: seq<Effect>, ys: seq<Effect>)
    ensures CommitsOf(xs + ys) == CommitsOf(xs) + CommitsOf(ys)
  {
    if xs == [] {
      assert xs + ys == ys;
    } else {
      var rest := xs[1..];
      assert (xs + ys)[0] == xs[0] && (xs + ys)[1..] == rest + ys;
      CommitsAppend(rest, ys);
    }
  }

  lemma {:induction false} NoCommits(es: seq<Effect>)
    requires forall i | 0 <= i < |es| :: !es[i].CommitRequested?
    ensures CommitsOf(es) == []
  {
    if es == [] {
    } else {
      NoCommits(es[1..]);
    }
  }

  /** One commit for each polled message that does not raise, in the order of the polls. */
  function CommitsDue(polls: seq<Poll>): seq<Effect> {
    if polls == [] then []
    else
      var last := polls[|polls| - 1];
      CommitsDue(polls[..|polls| - 1])
      + if last.Polled? && !last.m.body.NotAnEvent?
        then [CommitRequested(last.m.topic, last.m.partition, last.m.offset)]
        else []
  }

  lemma PollCommits(registry: Registry, poll: Poll, ok: (nat, nat) -> bool)
    ensures CommitsOf(PollEffects(registry, poll, ok)) == CommitsDue([poll])
  {
    var es := PollEffects(registry, poll, ok);
    assert [poll][..0] == [];
    if poll.Polled? && !poll.m.body.NotAnEvent? {
      ProcessEndsInCommit(registry, poll.m, ok);
      var before, last := es[..|es| - 1], es[|es| - 1];
      assert es == before + [last];
      NoCommits(before);
      CommitsAppend(before, [last]);
      assert CommitsOf([last]) == [last];
    } else if poll.Polled? {
      ProcessEndsInCommit(registry, poll.m, ok);
    }
  }

  /** The commits of the consumer loop are exactly those due. */
  lemma {:induction false} LoopCommits(registry: Registry, polls: seq<Poll>, ok: nat -> (nat, nat) -> bool, n: nat)
    requires n <= |polls|
    ensures CommitsOf(LoopEffects(registry, polls, ok, n)) == CommitsDue(polls[..n])
    decreases n
  {
    if n == 0 {
    } else {
      LoopCommits(registry, polls, ok, n - 1);
      PollCommits(registry, polls[n - 1], ok(n - 1));
      CommitsAppend(LoopEffects(registry, polls, ok, n - 1), PollEffects(registry, polls[n - 1], ok(n - 1)));
      assert polls[..n][..n - 1] == polls[..n - 1];
      assert [polls[n - 1]][..0] == [];
    }
  }

  lemma JoinLast(before: seq<Effect>, middle: seq<Effect>, rest: seq<Effect>, last: seq<Effect>)
    ensures before + middle + rest + last == before + middle + (rest + last)
  {
  }

  /** Every polled message is worked through in its turn, with the behaviour its handlers show on that poll. */
  lemma {:induction false} PollWorkedThrough(registry: Registry, polls: seq<Poll>, ok: nat -> (nat, nat) -> bool,
                                             n: nat, i: nat)
    returns (before: seq<Effect>, after: seq<Effect>)
    requires i < n <= |polls| && polls[i].Polled?
    ensures LoopEffects(registry, polls, ok, n) == before + ProcessEffects(registry, polls[i].m, ok(i)) + after
    ensures CommitsOf(before) == CommitsDue(polls[..i])
    decreases n
  {
    if i == n - 1 {
      before, after := LoopEffects(registry, polls, ok, i), [];
      LoopCommits(registry, polls, ok, i);
    } else {
      var rest;
      before, rest := PollWorkedThrough(registry, polls, ok, n - 1, i);
      var last := PollEffects(registry, polls[n - 1], ok(n - 1));
      after := rest + last;
      JoinLast(before, ProcessEffects(registry, polls[i].m, ok(i)), rest, last);
    }
  }

  /** What each handler is put through, from its first call to its return or its dead letter. */
  lemma HandlerEffectsInFull(m: Message, h: nat)
    ensures HandlerEffects(m, h, 0) == [Called(h, true)]
    ensures HandlerEffects(m, h, 1) == [Called(h, false), Slept(1), Called(h, true)]
    ensures HandlerEffects(m, h, 2) == [Called(h, false), Slept(1), Called(h, false), Slept(5), Called(h, true)]
    ensures HandlerEffects(m, h, 3)
            == [Called(h, false), Slept(1), Called(h, false), Slept(5), Called(h, false),
                DeadLettered("AUDIT_LOG", m.topic, m.partition, m.offset)]
  {
    var one, two := FailuresEffects(m, h, 1), FailuresEffects(m, h, 2);
    assert FailuresEffects(m, h, 0) == [];
    assert one == [Called(h, false), Slept(1)];
    assert two == [Called(h, false), Slept(1), Called(h, false), Slept(5)];
    assert FailuresEffects(m, h, 3) == two + [Called(h, false), DeadLetter(m)];
  }

  /** Everything about one message that the consumer gets through, for any behaviour of its handlers. */
  lemma RetryLoopRefinesFold(registry: Registry, m: Message, ok: (nat, nat) -> bool, h: nat)
    requires m.body.Event? && m.body.eventType in registry && h < |registry[m.body.eventType]|
    ensures var es := ProcessEffects(registry, m, ok);
            var n := |registry[m.body.eventType]|;
            var fails := FailsOf(ok, n);
            && es[|es| - 1] == CommitRequested(m.topic, m.partition, m.offset)
            && EffectsWithin(es[..|es| - 1], m, 0, n)
            && Calls(es, h) == (if fails[h] < MAX_RETRIES then fails[h] + 1 else MAX_RETRIES)
            && (Returns(es, h) == 1 <==> ok(h, 0) || ok(h, 1) || ok(h, 2))
            && DeadLetters(es) == Exhausted(fails)
            && SleepTime(es) <= 6 * n
  {
    var n := |HandlersFor(registry, m.body)|;
    var fails := FailsOf(ok, n);
    var es := MessageEffects(m, fails);
    MessageCounts(m, fails, h);
    MessageOrder(m, fails, n);
    assert fails[..n] == fails;
    CountsAppend(es, [Commit(m)], h);
    assert (es + [Commit(m)])[..|es|] == es;
  }
}
