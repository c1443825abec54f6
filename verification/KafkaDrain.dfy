/**
 Draining the log: the consumer reads every topic, the one with its own dead letters included. With no other
 producers and no crash, does it come to an end?
 */
module KafkaDrain {
  import opened Common
  import opened Kafka

  /** What is still unread, partition by partition. */
  type Unread = seq<seq<Body>>

  const DEAD_LETTER_BODY := Event(DLQ_EVENT_TYPE)

  /** A dead letter arrives on each of these partitions, in this order. */
  function Deliver(u: Unread, targets: seq<nat>): (r: Unread)
    requires forall t | t in targets :: t < |u|
    ensures |r| == |u|
    decreases |targets|
  {
    if targets == [] then u
    else
      var t := targets[0];
      assert t in targets;
      assert forall x | x in targets[1..] :: x in targets;
      Deliver(u[t := u[t] + [DEAD_LETTER_BODY]], targets[1..])
  }

  /** How many of the targets are partition p. */
  function Hits(targets: seq<nat>, p: nat): nat {
    if targets == [] then 0 else (if targets[0] == p then 1 else 0) + Hits(targets[1..], p)
  }

  /** The dead letters come behind what is there. */
  lemma {:induction false} DeliverAppends(u: Unread, targets: seq<nat>, p: nat)
    requires (forall t | t in targets :: t < |u|) && p < |u|
    ensures Deliver(u, targets)[p] == u[p] + Repeat<Body>(Event("dlq.failed"), Hits(targets, p))
    decreases |targets|
  {
    if targets == [] {
    } else {
      var t := targets[0];
      assert t in targets;
      assert forall x | x in targets[1..] :: x in targets;
      DeliverAppends(u[t := u[t] + [DEAD_LETTER_BODY]], targets[1..], p);
    }
  }

  /**
   The consumer works through the first unread message of partition p; its handlers fail as `fails` says, and
   the dead letters that the broker takes in arrive on `targets`.
   */
  ghost predicate Processes(registry: Registry, u: Unread, v: Unread, p: nat, fails: seq<nat>, targets: seq<nat>) {
    && p < |u| && u[p] != [] && !u[p][0].NotAnEvent?
    && |fails| == Needed(registry, u[p][0]) && FailCounts(fails)
    && |targets| <= Exhausted(fails)
    && (forall t | t in targets :: t < |u|)
    && v == Deliver(u[p := u[p][1..]], targets)
  }

  ghost predicate DrainStep(registry: Registry, u: Unread, v: Unread) {
    exists p: nat, fails: seq<nat>, targets: seq<nat> :: Processes(registry, u, v, p, fails, targets)
  }

  ghost predicate DrainRun(registry: Registry, run: seq<Unread>) {
    forall i | 0 <= i < |run| - 1 :: DrainStep(registry, run[i], run[i + 1])
  }

  // ---------------------------------------------------------------------------------------------
  // The measure: an unread message counts one, and one more for each dead letter it may give.

  function LogWeight(registry: Registry, log: seq<Body>): nat {
    if log == [] then 0 else 1 + Needed(registry, log[0]) + LogWeight(registry, log[1..])
  }

  function Weight(registry: Registry, u: Unread): nat {
    if u == [] then 0 else LogWeight(registry, u[0]) + Weight(registry, u[1..])
  }

  lemma {:induction false} LogWeightAppend(registry: Registry, log: seq<Body>, body: Body)
    ensures LogWeight(registry, log + [body]) == LogWeight(registry, log) + 1 + Needed(registry, body)
  {
    if log == [] {
      assert log + [body] == [body];
      assert [body][1..] == [];
    } else {
      assert (log + [body])[1..] == log[1..] + [body];
      LogWeightAppend(registry, log[1..], body);
    }
  }

  lemma {:induction false} WeightUpdate(registry: Registry, u: Unread, p: nat, log: seq<Body>)
    requires p < |u|
    ensures Weight(registry, u[p := log]) == Weight(registry, u) - LogWeight(registry, u[p]) + LogWeight(registry, log)
    decreases |u|
  {
    if p == 0 {
      assert u[p := log][1..] == u[1..];
    } else {
      assert u[p := log][1..] == u[1..][p - 1 := log];
      WeightUpdate(registry, u[1..], p - 1, log);
    }
  }

  lemma {:induction false} WeightDeliver(registry: Registry, u: Unread, targets: seq<nat>)
    requires forall t | t in targets :: t < |u|
    requires Needed(registry, DEAD_LETTER_BODY) == 0
    ensures Weight(registry, Deliver(u, targets)) == Weight(registry, u) + |targets|
    decreases |targets|
  {
    if targets == [] {
    } else {
      var t := targets[0];
      assert t in targets;
      var log := u[t] + [DEAD_LETTER_BODY];
      WeightUpdate(registry, u, t, log);
      LogWeightAppend(registry, u[t], DEAD_LETTER_BODY);
      assert forall x | x in targets[1..] :: x in targets;
      WeightDeliver(registry, u[t := log], targets[1..]);
    }
  }

  /** Each message worked through makes the rest lighter, although it may add dead letters. */
  lemma StepLighter(registry: Registry, u: Unread, v: Unread)
    requires Needed(registry, DEAD_LETTER_BODY) == 0 && DrainStep(registry, u, v)
    ensures Weight(registry, v) < Weight(registry, u)
  {
    var p: nat, fails: seq<nat>, targets: seq<nat> :| Processes(registry, u, v, p, fails, targets);
    WeightUpdate(registry, u, p, u[p][1..]);
    WeightDeliver(registry, u[p := u[p][1..]], targets);
  }

  lemma {:induction false} RunBounded(registry: Registry, run: seq<Unread>)
    requires Needed(registry, DEAD_LETTER_BODY) == 0 && DrainRun(registry, run) && run != []
    ensures |run| - 1 <= Weight(registry, run[0])
    decreases |run|
  {
    if |run| == 1 {
    } else {
      StepLighter(registry, run[0], run[1]);
      assert DrainRun(registry, run[1..]) by {
        forall i | 0 <= i < |run[1..]| - 1
          ensures DrainStep(registry, run[1..][i], run[1..][i + 1])
        {
          assert DrainStep(registry, run[i + 1], run[i + 2]);
        }
      }
      RunBounded(registry, run[1..]);
    }
  }

  /** The consumer cannot go on. */
  ghost predicate Stuck(registry: Registry, u: Unread) {
    forall v :: !DrainStep(registry, u, v)
  }

  /** Nothing more to do exactly when each partition is empty or stops at a message that is no event. */
  lemma StuckIff(registry: Registry, u: Unread)
    ensures Stuck(registry, u) <==> (forall p | 0 <= p < |u| :: u[p] == [] || u[p][0].NotAnEvent?)
  {
    if p: nat :| p < |u| && u[p] != [] && !u[p][0].NotAnEvent? {
      var fails := Repeat<nat>(0, Needed(registry, u[p][0]));
      assert Processes(registry, u, u[p := u[p][1..]], p, fails, []);
      assert DrainStep(registry, u, u[p := u[p][1..]]);
    }
  }

  /** Every unread message is an event or malformed, so none stops the consumer. */
  ghost predicate NoneStops(u: Unread) {
    forall p | 0 <= p < |u| :: forall b | b in u[p] :: !b.NotAnEvent?
  }

  lemma {:induction false} DeliverStopsNothing(u: Unread, targets: seq<nat>)
    requires NoneStops(u) && forall t | t in targets :: t < |u|
    ensures NoneStops(Deliver(u, targets))
    decreases |targets|
  {
    if targets == [] {
    } else {
      var t := targets[0];
      assert t in targets;
      assert forall x | x in targets[1..] :: x in targets;
      DeliverStopsNothing(u[t := u[t] + [DEAD_LETTER_BODY]], targets[1..]);
    }
  }

  lemma {:induction false} RunStopsNothing(registry: Registry, run: seq<Unread>, i: nat)
    requires DrainRun(registry, run) && i < |run| && NoneStops(run[0])
    ensures NoneStops(run[i])
  {
    if i == 0 {
    } else {
      RunStopsNothing(registry, run, i - 1);
      assert DrainStep(registry, run[i - 1], run[i - 1 + 1]);
      var p: nat, fails: seq<nat>, targets: seq<nat> :| Processes(registry, run[i - 1], run[i], p, fails, targets);
      var u := run[i - 1];
      assert forall b | b in u[p][1..] :: b in u[p];
      DeliverStopsNothing(u[p := u[p][1..]], targets);
    }
  }

  /** From each unread log, the consumer gets to the end, or to messages that raise. */
  ghost predicate Drains(registry: Registry) {
    forall u :: DrainsFrom(registry, u)
  }

  /** All runs end within some number of messages; if no message raises, all that end have emptied the log. */
  ghost predicate DrainsFrom(registry: Registry, u: Unread) {
    && (exists bound: nat :: BoundedFrom(registry, u, bound))
    && (NoneStops(u) ==> EndsEmpty(registry, u))
  }

  ghost predicate EndsEmpty(registry: Registry, u: Unread) {
    forall run: seq<Unread> | run != [] && run[0] == u && DrainRun(registry, run) && Stuck(registry, run[|run| - 1]) ::
      AllRead(run[|run| - 1])
  }

  ghost predicate AllRead(u: Unread) {
    forall p | 0 <= p < |u| :: u[p] == []
  }

  ghost predicate BoundedFrom(registry: Registry, u: Unread, bound: nat) {
    forall run: seq<Unread> | run != [] && run[0] == u && DrainRun(registry, run) :: |run| - 1 <= bound
  }

  // ---------------------------------------------------------------------------------------------
  // A handler for dead letters would undo this.

  lemma {:induction false} ExhaustedAll(n: nat)
    ensures Exhausted(Repeat<nat>(MAX_RETRIES, n)) == n
    decreases n
  {
    if n == 0 {
    } else {
      assert Repeat<nat>(MAX_RETRIES, n)[..n - 1] == Repeat<nat>(MAX_RETRIES, n - 1);
      ExhaustedAll(n - 1);
    }
  }

  lemma {:induction false} DeliverToFirst(n: nat, k: nat)
    ensures Deliver([Repeat<Body>(DEAD_LETTER_BODY, k)], Repeat<nat>(0, n)) == [Repeat<Body>(DEAD_LETTER_BODY, k + n)]
    decreases n
  {
    var u := [Repeat<Body>(DEAD_LETTER_BODY, k)];
    var targets: seq<nat> := Repeat<nat>(0, n);
    if n == 0 {
      assert targets == [];
    } else {
      assert u[0] + [DEAD_LETTER_BODY] == Repeat<Body>(DEAD_LETTER_BODY, k + 1);
      var next := u[0 := u[0] + [DEAD_LETTER_BODY]];
      assert next == [Repeat<Body>(DEAD_LETTER_BODY, k + 1)];
      assert targets[0] == 0 && targets[1..] == Repeat<nat>(0, n - 1);
      assert Deliver(u, targets) == Deliver(next, targets[1..]);
      DeliverToFirst(n - 1, k + 1);
      assert Repeat<Body>(DEAD_LETTER_BODY, k + 1 + (n - 1)) == Repeat<Body>(DEAD_LETTER_BODY, k + n);
    }
  }

  /** With d handlers for dead letters, all failing and nothing lost, one dead letter makes way for d others. */
  lemma DeadLettersBreed(registry: Registry, k: nat)
    requires k >= 1 && Needed(registry, DEAD_LETTER_BODY) >= 1
    ensures var d := Needed(registry, DEAD_LETTER_BODY);
            DrainStep(registry, [Repeat<Body>(DEAD_LETTER_BODY, k)], [Repeat<Body>(DEAD_LETTER_BODY, k - 1 + d)])
  {
    var d := Needed(registry, DEAD_LETTER_BODY);
    var u := [Repeat<Body>(DEAD_LETTER_BODY, k)];
    assert u[0][1..] == Repeat<Body>(DEAD_LETTER_BODY, k - 1);
    assert u[0 := u[0][1..]] == [Repeat<Body>(DEAD_LETTER_BODY, k - 1)];
    ExhaustedAll(d);
    DeliverToFirst(d, k - 1);
    var v := [Repeat<Body>(DEAD_LETTER_BODY, k - 1 + d)];
    assert Processes(registry, u, v, 0, Repeat<nat>(MAX_RETRIES, d), Repeat<nat>(0, d));
  }

  lemma {:induction false} EndlessRun(registry: Registry, k: nat, n: nat) returns (run: seq<Unread>)
    requires k >= 1 && Needed(registry, DEAD_LETTER_BODY) >= 1
    ensures |run| == n + 1 && run[0] == [Repeat<Body>(DEAD_LETTER_BODY, k)] && DrainRun(registry, run)
    decreases n
  {
    var first := [Repeat<Body>(DEAD_LETTER_BODY, k)];
    if n == 0 {
      run := [first];
    } else {
      DeadLettersBreed(registry, k);
      var rest := EndlessRun(registry, k - 1 + Needed(registry, DEAD_LETTER_BODY), n - 1);
      run := [first] + rest;
      forall i | 0 <= i < |run| - 1
        ensures DrainStep(registry, run[i], run[i + 1])
      {
        if i > 0 {
          assert DrainStep(registry, rest[i - 1], rest[i]);
        }
      }
    }
  }

  lemma StuckAtTheEnd(registry: Registry, run: seq<Unread>)
    requires DrainRun(registry, run) && run != [] && NoneStops(run[0])
    ensures Stuck(registry, run[|run| - 1]) <==> AllRead(run[|run| - 1])
  {
    var last := run[|run| - 1];
    RunStopsNothing(registry, run, |run| - 1);
    StuckIff(registry, last);
    assert forall p | 0 <= p < |last| && last[p] != [] :: last[p][0] in last[p];
  }

  lemma UnhandledDrains(registry: Registry, u: Unread)
    requires Needed(registry, DEAD_LETTER_BODY) == 0
    ensures DrainsFrom(registry, u)
  {
    forall run: seq<Unread> | run != [] && run[0] == u && DrainRun(registry, run)
      ensures |run| - 1 <= Weight(registry, u)
      ensures NoneStops(u) && Stuck(registry, run[|run| - 1]) ==> AllRead(run[|run| - 1])
    {
      RunBounded(registry, run);
      if NoneStops(u) {
        StuckAtTheEnd(registry, run);
      }
    }
    assert BoundedFrom(registry, u, Weight(registry, u));
  }

  /**
   From every log the consumer gets, in boundedly many messages, to the end of its log, or as far as messages that
   raise let it, exactly when no handler is registered for dead letters.
   */
  lemma DrainsIffDeadLettersUnhandled(registry: Registry)
    ensures Drains(registry) <==> Needed(registry, DEAD_LETTER_BODY) == 0
  {
    if Needed(registry, DEAD_LETTER_BODY) == 0 {
      forall u
        ensures DrainsFrom(registry, u)
      {
        UnhandledDrains(registry, u);
      }
    } else if Drains(registry) {
      var u := [Repeat<Body>(DEAD_LETTER_BODY, 1)];
      assert DrainsFrom(registry, u);
      var bound: nat :| BoundedFrom(registry, u, bound);
      var run := EndlessRun(registry, 1, bound + 1);
      assert false;
    }
  }

  /**
   With the handlers that are registered: a run takes at most one poll for each unit of weight, and when it
   cannot go on, and nothing unread was a message that raises, the log is empty.
   */
  lemma RegisteredHandlersDrain(run: seq<Unread>)
    requires DrainRun(ALL_HANDLERS, run) && run != [] && NoneStops(run[0])
    ensures Drains(ALL_HANDLERS) && |run| - 1 <= Weight(ALL_HANDLERS, run[0])
    ensures Stuck(ALL_HANDLERS, run[|run| - 1]) <==> AllRead(run[|run| - 1])
  {
    PublishedTypesWithHandlers(DLQ_EVENT_TYPE);
    RunBounded(ALL_HANDLERS, run);
    DrainsIffDeadLettersUnhandled(ALL_HANDLERS);
    StuckAtTheEnd(ALL_HANDLERS, run);
  }
}
