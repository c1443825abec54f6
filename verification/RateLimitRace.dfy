/**
 The limiter when requests of one key overlap: the counter is read in one step and written in a later one.

 `admitted` and `resets` are history: how many requests were let through, and how often the counter was
 set to 1, since the counter last came alive. Nothing the code does depends on them.
 */
module RateLimitRace {
  import opened Common
  import opened RateLimit

  datatype State = State(
    now: real,
    slot: Slot,
    inFlight: seq<nat>, // what each request between its read and its write has read
    admitted: nat,
    resets: nat)

  datatype Event =
    | Tick(now: real)  // the clock moves on
    | Read             // a request passes or fails the two checks
    | Write(i: nat)    // the i-th request in flight writes the counter

  function Alive(s: State): bool {
    Live(s.slot.counter, s.now).Some?
  }

  function Step(rule: Rule, s: State, e: Event): State {
    match e
    case Tick(now) =>
      if now < s.now then s else s.(now := now)
    case Read =>
      var count := Count(s.slot.counter, s.now);
      if Count(s.slot.block, s.now) != 0 then s
      else if count >= rule.limit then
        s.(slot := s.slot.(block := Some(Entry(1, s.now + BLOCK_DURATION))))
      else s.(inFlight := s.inFlight + [count])
    case Write(i) =>
      if i >= |s.inFlight| then s
      else
        var left := s.(inFlight := Without(s.inFlight, i));
        if s.inFlight[i] == 0 then
          left.(slot := s.slot.(counter := Some(Entry(1, s.now + rule.window))),
                admitted := if Alive(s) then s.admitted + 1 else 1,
                resets := if Alive(s) then s.resets + 1 else 1)
        else if !Alive(s) then
          left // incr on a missing key raises: the request fails
        else
          left.(slot := s.slot.(counter := Some(s.slot.counter.value.(value := s.slot.counter.value.value + 1))),
                admitted := s.admitted + 1)
  }

  const START := State(0.0, EMPTY_SLOT, [], 0, 0)

  function RunFrom(rule: Rule, s: State, es: seq<Event>): State
    decreases |es|
  {
    if es == [] then s else RunFrom(rule, Step(rule, s, es[0]), es[1..])
  }

  /** At most p requests are in flight at any moment of the run. */
  ghost predicate AtMostInFlight(rule: Rule, s: State, es: seq<Event>, p: nat)
    decreases |es|
  {
    |s.inFlight| <= p && (es == [] || AtMostInFlight(rule, Step(rule, s, es[0]), es[1..], p))
  }

  /** How many requests in flight have read a missing counter. */
  function Zeros(xs: seq<nat>): nat {
    if xs == [] then 0 else (if xs[0] == 0 then 1 else 0) + Zeros(xs[1..])
  }

  lemma {:induction false} ZerosAppend(xs: seq<nat>, ys: seq<nat>)
    ensures Zeros(xs + ys) == Zeros(xs) + Zeros(ys)
  {
    if xs == [] {
      assert xs + ys == ys;
    } else {
      assert (xs + ys)[1..] == xs[1..] + ys;
      ZerosAppend(xs[1..], ys);
    }
  }

  lemma ZerosWithout(xs: seq<nat>, i: nat)
    requires i < |xs|
    ensures Zeros(Without(xs, i)) + (if xs[i] == 0 then 1 else 0) == Zeros(xs)
  {
    var before, from, after := xs[..i], xs[i..], xs[i + 1..];
    assert xs == before + from && from[0] == xs[i] && from[1..] == after;
    ZerosAppend(before, from);
    ZerosAppend(before, after);
  }

  lemma {:induction false} ZerosAtMostAll(xs: seq<nat>)
    ensures Zeros(xs) <= |xs|
  {
    if xs == [] {
    } else {
      ZerosAtMostAll(xs[1..]);
    }
  }

  function Stored(s: State): nat {
    Count(s.slot.counter, s.now)
  }

  /** The largest value the counter can reach with p requests in flight. */
  function Peak(rule: Rule, p: nat): nat
    requires rule.limit >= 1
  {
    rule.limit + p - 1
  }

  ghost predicate Inv(rule: Rule, p: nat, s: State)
    requires rule.limit >= 1
  {
    && |s.inFlight| <= p
    && (forall i | 0 <= i < |s.inFlight| :: s.inFlight[i] < rule.limit)
    && Stored(s) + |s.inFlight| <= Peak(rule, p)
    && (s.slot.counter.Some? ==> s.slot.counter.value.value >= 1)
    && (Alive(s) ==>
          && s.resets >= 1
          && s.resets + Zeros(s.inFlight) <= p
          && s.admitted <= Stored(s) + Lives(rule.limit, p - Zeros(s.inFlight) - 1)
          && (s.resets == 1 ==> s.admitted <= Stored(s))
          && (rule.limit == 1 ==> s.admitted + Zeros(s.inFlight) <= p))
  }

  /** What m lives of the counter admit: a late writer that ends one leaves its place to the next. */
  function Lives(limit: nat, m: nat): nat {
    if m == 0 then 0 else Lives(limit, m - 1) + limit + m - 1
  }

  lemma {:induction false} LivesGrow(limit: nat, m: nat, n: nat)
    requires m <= n
    ensures Lives(limit, m) <= Lives(limit, n)
    decreases n
  {
    if m == n {
    } else {
      LivesGrow(limit, m, n - 1);
    }
  }

  lemma {:induction false} LivesIsSum(limit: nat, m: nat)
    ensures 2 * Lives(limit, m) == 2 * (m * limit) + m * (m - 1)
  {
    if m == 0 {
    } else {
      LivesIsSum(limit, m - 1);
      assert m * limit == (m - 1) * limit + limit;
      assert m * (m - 1) == (m - 1) * (m - 2) + 2 * (m - 1);
    }
  }

  lemma StepKeepsInv(rule: Rule, p: nat, s: State, e: Event)
    requires ValidRule(rule) && Inv(rule, p, s) && |Step(rule, s, e).inFlight| <= p
    ensures Inv(rule, p, Step(rule, s, e))
  {
    match e
    case Tick(now) =>
    case Read =>
      ZerosAppend(s.inFlight, [Count(s.slot.counter, s.now)]);
    case Write(i) =>
      if i < |s.inFlight| {
        if s.inFlight[i] == 0 {
          FirstWriteKeepsInv(rule, p, s, i);
        } else {
          LaterWriteKeepsInv(rule, p, s, i);
        }
      }
  }

  lemma FirstWriteKeepsInv(rule: Rule, p: nat, s: State, i: nat)
    requires ValidRule(rule) && Inv(rule, p, s) && i < |s.inFlight| && s.inFlight[i] == 0
    ensures Inv(rule, p, Step(rule, s, Write(i)))
  {
    ZerosWithout(s.inFlight, i);
    ZerosAtMostAll(Without(s.inFlight, i));
    ZerosAtMostAll(s.inFlight);
    var zeros := Zeros(s.inFlight);
    if Alive(s) {
      assert Lives(rule.limit, p - zeros) == Lives(rule.limit, p - zeros - 1) + rule.limit + (p - zeros) - 1;
    }
  }

  lemma LaterWriteKeepsInv(rule: Rule, p: nat, s: State, i: nat)
    requires ValidRule(rule) && Inv(rule, p, s) && i < |s.inFlight| && s.inFlight[i] != 0
    ensures Inv(rule, p, Step(rule, s, Write(i)))
  {
    ZerosWithout(s.inFlight, i);
  }

  lemma {:induction false} RunKeepsInv(rule: Rule, p: nat, s: State, es: seq<Event>)
    requires ValidRule(rule) && Inv(rule, p, s) && AtMostInFlight(rule, s, es, p)
    ensures Inv(rule, p, RunFrom(rule, s, es))
    decreases |es|
  {
    if es == [] {
    } else {
      StepKeepsInv(rule, p, s, es[0]);
      RunKeepsInv(rule, p, Step(rule, s, es[0]), es[1..]);
    }
  }

  /** The most that one life of the counter admits, counted from a request that finds none. */
  function MostAdmitted(limit: nat, p: nat): nat {
    if limit == 1 then p else Lives(limit, p)
  }

  /**
   How far races carry the limiter past its limit: with at most p requests in flight the stored counter
   never exceeds limit + p - 1. While the counter is alive, at most p * limit + p * (p - 1) / 2 requests have been
   admitted since it came alive (p if the limit is one), and at most limit + p - 1 if no late writer has set it back
   to 1. With p == 1 all are the limit itself.
   */
  lemma RaceBound(rule: Rule, p: nat, es: seq<Event>)
    requires ValidRule(rule) && AtMostInFlight(rule, START, es, p)
    ensures var s := RunFrom(rule, START, es);
            && Stored(s) <= rule.limit + p - 1
            && (Alive(s) ==> s.admitted <= MostAdmitted(rule.limit, p))
            && (Alive(s) && s.resets == 1 ==> s.admitted <= rule.limit + p - 1)
    ensures 2 * Lives(rule.limit, p) == 2 * (p * rule.limit) + p * (p - 1)
  {
    RunKeepsInv(rule, p, START, es);
    LivesIsSum(rule.limit, p);
    var s := RunFrom(rule, START, es);
    if Alive(s) {
      ZerosAtMostAll(s.inFlight);
      LivesGrow(rule.limit, p - Zeros(s.inFlight), p);
    }
  }

  // ---------------------------------------------------------------------------------------------
  // The bound is attained. All happens at one moment: p requests find no counter; whenever one of them sets the
  // counter to 1, the places free by then fill it up to limit - 1, read that together, and write.

  lemma {:induction false} RunConcat(rule: Rule, s: State, es: seq<Event>, fs: seq<Event>, p: nat)
    requires AtMostInFlight(rule, s, es, p) && AtMostInFlight(rule, RunFrom(rule, s, es), fs, p)
    ensures RunFrom(rule, s, es + fs) == RunFrom(rule, RunFrom(rule, s, es), fs)
    ensures AtMostInFlight(rule, s, es + fs, p)
    decreases |es|
  {
    if es == [] {
      assert es + fs == fs;
    } else {
      assert (es + fs)[1..] == es[1..] + fs;
      RunConcat(rule, Step(rule, s, es[0]), es[1..], fs, p);
    }
  }

  lemma RunOne(rule: Rule, s: State, e: Event, p: nat)
    requires |s.inFlight| <= p && |Step(rule, s, e).inFlight| <= p
    ensures RunFrom(rule, s, [e]) == Step(rule, s, e) && AtMostInFlight(rule, s, [e], p)
  {
    assert [e][1..] == [];
    assert AtMostInFlight(rule, Step(rule, s, e), [e][1..], p);
  }

  /** A state with a live counter of this value and no block. */
  ghost predicate Counting(s: State, value: nat) {
    s.slot.counter.Some? && s.now < s.slot.counter.value.expires && s.slot.counter.value.value == value && s.slot.block.None?
  }

  /** The same state with n more admitted and counted. */
  function Further(s: State, n: nat): State
    requires s.slot.counter.Some?
  {
    var counter := s.slot.counter.value;
    s.(slot := s.slot.(counter := Some(counter.(value := counter.value + n))), admitted := s.admitted + n)
  }

  /** n requests, each of which reads and then writes. */
  lemma {:induction false} OneByOne(rule: Rule, s: State, v: nat, n: nat, p: nat) returns (es: seq<Event>)
    requires Counting(s, v) && v >= 1 && v + n <= rule.limit && |s.inFlight| < p
    ensures AtMostInFlight(rule, s, es, p) && RunFrom(rule, s, es) == Further(s, n)
    decreases n
  {
    es := [];
    if n == 0 {
    } else {
      var i := |s.inFlight|;
      var read := Step(rule, s, Read);
      RunOne(rule, s, Read, p);
      RunOne(rule, read, Write(i), p);
      RunConcat(rule, s, [Read], [Write(i)], p);
      assert Step(rule, read, Write(i)).inFlight == s.inFlight;
      assert Step(rule, read, Write(i)) == Further(s, 1);
      var rest := OneByOne(rule, Further(s, 1), v + 1, n - 1, p);
      RunConcat(rule, s, [Read] + [Write(i)], rest, p);
      es := [Read] + [Write(i)] + rest;
    }
  }

  /** n requests read together. */
  lemma {:induction false} ReadTogether(rule: Rule, s: State, n: nat, p: nat) returns (es: seq<Event>)
    requires s.slot.block.None? && Count(s.slot.counter, s.now) < rule.limit && |s.inFlight| + n <= p
    ensures AtMostInFlight(rule, s, es, p)
    ensures RunFrom(rule, s, es) == s.(inFlight := s.inFlight + Repeat<nat>(Count(s.slot.counter, s.now), n))
    decreases n
  {
    es := [];
    var c := Count(s.slot.counter, s.now);
    if n == 0 {
      assert s.inFlight + Repeat<nat>(c, 0) == s.inFlight;
    } else {
      RunOne(rule, s, Read, p);
      var rest := ReadTogether(rule, Step(rule, s, Read), n - 1, p);
      RunConcat(rule, s, [Read], rest, p);
      assert s.inFlight + [c] + Repeat<nat>(c, n - 1) == s.inFlight + Repeat<nat>(c, n);
      es := [Read] + rest;
    }
  }

  /** The last n of those in flight write what is not a first value. */
  lemma {:induction false} WriteTogether(rule: Rule, s: State, v: nat, base: seq<nat>, c: nat, n: nat, p: nat)
    returns (es: seq<Event>)
    requires Counting(s, v) && c >= 1 && s.inFlight == base + Repeat<nat>(c, n) && |base| + n <= p
    ensures AtMostInFlight(rule, s, es, p) && RunFrom(rule, s, es) == Further(s, n).(inFlight := base)
    decreases n
  {
    es := [];
    if n == 0 {
      assert base + Repeat<nat>(c, 0) == base;
    } else {
      var write := Write(|base|);
      var next := Step(rule, s, write);
      assert s.inFlight[|base|] == c;
      assert next.inFlight == base + Repeat<nat>(c, n - 1);
      RunOne(rule, s, write, p);
      var rest := WriteTogether(rule, next, v + 1, base, c, n - 1, p);
      RunConcat(rule, s, [write], rest, p);
      es := [write] + rest;
    }
  }

  /** Nothing but z requests that have found no counter in flight. */
  ghost predicate Waiting(s: State, z: nat) {
    s.slot.block.None? && s.inFlight == Repeat<nat>(0, z)
  }

  /** One of them starts a life of the counter. */
  lemma NewLife(rule: Rule, s: State, z: nat, p: nat)
    requires ValidRule(rule) && Waiting(s, z) && 1 <= z <= p
    ensures var t := RunFrom(rule, s, [Write(0)]);
            && AtMostInFlight(rule, s, [Write(0)], p)
            && Counting(t, 1) && Waiting(t, z - 1) && t.now == s.now
            && t.admitted == if Alive(s) then s.admitted + 1 else 1
  {
    RunOne(rule, s, Write(0), p);
    assert Without(s.inFlight, 0) == Repeat<nat>(0, z - 1);
  }

  /** And the places free by then use it up. */
  lemma UseLife(rule: Rule, s: State, z: nat, p: nat) returns (es: seq<Event>)
    requires rule.limit >= 2 && Waiting(s, z) && z < p && Counting(s, 1)
    ensures AtMostInFlight(rule, s, es, p) && RunFrom(rule, s, es) == Further(s, rule.limit - 2 + p - z)
  {
    var alone := OneByOne(rule, s, 1, rule.limit - 2, p);
    var full := Further(s, rule.limit - 2);
    var readers := ReadTogether(rule, full, p - z, p);
    var read := RunFrom(rule, full, readers);
    var writes := WriteTogether(rule, read, rule.limit - 1, s.inFlight, rule.limit - 1, p - z, p);
    RunConcat(rule, full, readers, writes, p);
    RunConcat(rule, s, alone, readers + writes, p);
    es := alone + (readers + writes);
  }

  lemma {:induction false} AllLives(rule: Rule, s: State, z: nat, p: nat) returns (es: seq<Event>)
    requires ValidRule(rule) && rule.limit >= 2 && Waiting(s, z) && z < p && Alive(s)
    requires s.admitted == Lives(rule.limit, p - z)
    ensures AtMostInFlight(rule, s, es, p)
    ensures Alive(RunFrom(rule, s, es)) && RunFrom(rule, s, es).admitted == Lives(rule.limit, p)
    decreases z
  {
    if z == 0 {
      es := [];
    } else {
      var started, use := OneLife(rule, s, z, p);
      var rest := AllLives(rule, started, z - 1, p);
      RunConcat(rule, s, use, rest, p);
      es := use + rest;
    }
  }

  lemma OneLife(rule: Rule, s: State, z: nat, p: nat) returns (t: State, es: seq<Event>)
    requires ValidRule(rule) && rule.limit >= 2 && Waiting(s, z) && 1 <= z <= p
    ensures AtMostInFlight(rule, s, es, p) && RunFrom(rule, s, es) == t
    ensures Waiting(t, z - 1) && Alive(t)
    ensures t.admitted == rule.limit - 1 + p - (z - 1) + if Alive(s) then s.admitted else 0
  {
    NewLife(rule, s, z, p);
    var started := RunFrom(rule, s, [Write(0)]);
    var use := UseLife(rule, started, z - 1, p);
    RunConcat(rule, s, [Write(0)], use, p);
    t := Further(started, rule.limit - 2 + p - (z - 1));
    es := [Write(0)] + use;
  }

  /** With a limit of one nothing else is admitted, but each of the p that wait is. */
  lemma {:induction false} AllFirsts(rule: Rule, s: State, z: nat, p: nat) returns (es: seq<Event>)
    requires ValidRule(rule) && Waiting(s, z) && z < p && Alive(s) && s.admitted == p - z
    ensures AtMostInFlight(rule, s, es, p) && Alive(RunFrom(rule, s, es)) && RunFrom(rule, s, es).admitted == p
    decreases z
  {
    if z == 0 {
      es := [];
    } else {
      NewLife(rule, s, z, p);
      var rest := AllFirsts(rule, RunFrom(rule, s, [Write(0)]), z - 1, p);
      RunConcat(rule, s, [Write(0)], rest, p);
      es := [Write(0)] + rest;
    }
  }

  /** For every rule and every p there is a run that admits as many in one life of the counter. */
  lemma RaceBoundAttained(rule: Rule, p: nat) returns (es: seq<Event>)
    requires ValidRule(rule) && p >= 1
    ensures AtMostInFlight(rule, START, es, p)
    ensures Alive(RunFrom(rule, START, es)) && RunFrom(rule, START, es).admitted == MostAdmitted(rule.limit, p)
  {
    var readers := ReadTogether(rule, START, p, p);
    var waiting := RunFrom(rule, START, readers);
    assert waiting.inFlight == Repeat<nat>(0, p);
    if rule.limit == 1 {
      NewLife(rule, waiting, p, p);
      var rest := AllFirsts(rule, RunFrom(rule, waiting, [Write(0)]), p - 1, p);
      RunConcat(rule, waiting, [Write(0)], rest, p);
      RunConcat(rule, START, readers, [Write(0)] + rest, p);
      es := readers + ([Write(0)] + rest);
    } else {
      var started, use := OneLife(rule, waiting, p, p);
      var rest := AllLives(rule, started, p - 1, p);
      RunConcat(rule, waiting, use, rest, p);
      RunConcat(rule, START, readers, use + rest, p);
      es := readers + (use + rest);
    }
  }

  /** In a run of reads that are each written before the next read, the race model is the one-key model. */
  lemma SequentialIsSlotStep(rule: Rule, s: State, now: real)
    requires ValidRule(rule) && s.inFlight == [] && s.now <= now && CounterInRange(rule, s.slot)
    ensures var (slot, verdict) := SlotStep(rule, s.slot, now);
            var read := Step(rule, s.(now := now), Read);
            && (verdict == Admitted ==>
                  && |read.inFlight| == 1
                  && Step(rule, read, Write(0)).slot == slot && Step(rule, read, Write(0)).inFlight == [])
            && (verdict != Admitted ==> read.inFlight == [] && read.slot == slot)
  {
  }

  /**
   A request that has read a counter which is gone when it comes to count itself fails, and is not counted in the next
   life either; while the counter is there it adds one and leaves the expiry; one that has read none starts anew.
   */
  lemma WriteOutcome(rule: Rule, s: State, i: nat)
    requires i < |s.inFlight|
    ensures var t := Step(rule, s, Write(i));
            && t.inFlight == Without(s.inFlight, i) && t.now == s.now && t.slot.block == s.slot.block
            && (s.inFlight[i] > 0 && !Alive(s) ==> t.slot == s.slot && t.admitted == s.admitted)
            && (s.inFlight[i] > 0 && Alive(s) ==>
                  && t.slot.counter == Some(Entry(Stored(s) + 1, s.slot.counter.value.expires))
                  && t.admitted == s.admitted + 1)
            && (s.inFlight[i] == 0 ==>
                  && t.slot.counter == Some(Entry(1, s.now + rule.window))
                  && t.admitted == if Alive(s) then s.admitted + 1 else 1)
  {
  }
}
