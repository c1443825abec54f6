/**
 The limiter as one key sees it: a counter entry and a block entry, both with an expiry time.

 Requests of one key are processed one after the other here; Middleware.dfy puts this inside
 the shared cache and RateLimitRace.dfy lets the counter read and the counter write come apart.
 Times are seconds, as reals.
 */
module RateLimit {
  import opened Common

  const BLOCK_DURATION: real := 300.0

  datatype Rule = Rule(limit: nat, window: real)

  /** What the code needs of a rule for the bounds below; the three configured rules satisfy it. */
  predicate ValidRule(rule: Rule) {
    rule.limit >= 1 && 0.0 < rule.window <= BLOCK_DURATION
  }

  /** A cache entry. It is gone once the clock reaches `expires`. */
  datatype Entry = Entry(value: nat, expires: real)

  datatype Slot = Slot(counter: Option<Entry>, block: Option<Entry>)

  const EMPTY_SLOT := Slot(None, None)

  datatype Verdict = Unlimited | Admitted | LimitRejected | Blocked

  /** The value of an entry that has not expired. */
  function Live(entry: Option<Entry>, now: real): Option<nat> {
    if entry.Some? && now < entry.value.expires then Some(entry.value.value) else None
  }

  /** cache.get(key, 0) */
  function Count(entry: Option<Entry>, now: real): nat {
    match Live(entry, now)
    case Some(n) => n
    case None => 0
  }

  /** One request against one key: the new entries and the answer. */
  function SlotStep(rule: Rule, slot: Slot, now: real): (Slot, Verdict) {
    var count := Count(slot.counter, now);
    if Count(slot.block, now) != 0 then
      (slot, Blocked)
    else if count >= rule.limit then
      (slot.(block := Some(Entry(1, now + BLOCK_DURATION))), LimitRejected)
    else if count == 0 then
      (slot.(counter := Some(Entry(1, now + rule.window))), Admitted)
    else
      (slot.(counter := Some(slot.counter.value.(value := count + 1))), Admitted)
  }

  /** The answers to a run of requests. */
  function Verdicts(rule: Rule, slot: Slot, times: seq<real>): (vs: seq<Verdict>)
    ensures |vs| == |times|
    decreases |times|
  {
    if times == [] then []
    else
      var (next, verdict) := SlotStep(rule, slot, times[0]);
      [verdict] + Verdicts(rule, next, times[1..])
  }

  function SlotAfter(rule: Rule, slot: Slot, times: seq<real>): Slot
    decreases |times|
  {
    if times == [] then slot
    else SlotAfter(rule, SlotStep(rule, slot, times[0]).0, times[1..])
  }

  /** How many requests are admitted at a time in [a, b). */
  function AdmittedIn(times: seq<real>, verdicts: seq<Verdict>, a: real, b: real): nat
    requires |times| == |verdicts|
  {
    if times == [] then 0
    else
      (if verdicts[0] == Admitted && a <= times[0] < b then 1 else 0)
      + AdmittedIn(times[1..], verdicts[1..], a, b)
  }

  function Admits(rule: Rule, slot: Slot, times: seq<real>, a: real, b: real): nat {
    AdmittedIn(times, Verdicts(rule, slot, times), a, b)
  }

  lemma AdmitsStep(rule: Rule, slot: Slot, times: seq<real>, a: real, b: real)
    requires times != []
    ensures var (next, verdict) := SlotStep(rule, slot, times[0]);
            Admits(rule, slot, times, a, b)
            == (if verdict == Admitted && a <= times[0] < b then 1 else 0) + Admits(rule, next, times[1..], a, b)
  {
    var (next, verdict) := SlotStep(rule, slot, times[0]);
    assert Verdicts(rule, slot, times)[1..] == Verdicts(rule, next, times[1..]);
  }

  // ---------------------------------------------------------------------------------------------
  // The invariant of a key's entries.

  /** A stored counter is in 1..limit. */
  predicate CounterInRange(rule: Rule, slot: Slot) {
    slot.counter.Some? ==> 1 <= slot.counter.value.value <= rule.limit
  }

  /** Nothing stored lives longer than its own lifetime counted from now; a stored block is truthy. */
  predicate SlotInv(rule: Rule, slot: Slot, now: real) {
    && CounterInRange(rule, slot)
    && (slot.counter.Some? ==> slot.counter.value.expires <= now + rule.window)
    && (slot.block.Some? ==> slot.block.value.value == 1 && slot.block.value.expires <= now + BLOCK_DURATION)
  }

  /** Live counters stay in 1..limit, over every run. */
  lemma {:induction false} SlotInvariant(rule: Rule, slot: Slot, times: seq<real>, now: real)
    requires ValidRule(rule) && Sorted(times) && SlotInv(rule, slot, now)
    requires times != [] ==> now <= times[0]
    ensures SlotInv(rule, SlotAfter(rule, slot, times), if times == [] then now else times[|times| - 1])
    decreases |times|
  {
    if times == [] {
    } else {
      SlotInvariant(rule, SlotStep(rule, slot, times[0]).0, times[1..], times[0]);
    }
  }

  // ---------------------------------------------------------------------------------------------
  // The sliding bound.

  lemma {:induction false} NoneAdmittedLater(rule: Rule, slot: Slot, times: seq<real>, a: real, b: real)
    requires Sorted(times) && (times != [] ==> b <= times[0])
    ensures Admits(rule, slot, times, a, b) == 0
    decreases |times|
  {
    if times == [] {
    } else {
      AdmitsStep(rule, slot, times, a, b);
      NoneAdmittedLater(rule, SlotStep(rule, slot, times[0]).0, times[1..], a, b);
    }
  }

  /** From inside the interval: what a counter with n used up still lets through, plus k later lifetimes. */
  lemma {:induction false} AdmitsFromCounter(rule: Rule, slot: Slot, times: seq<real>, a: real, b: real, k: nat)
    requires ValidRule(rule) && CounterInRange(rule, slot) && slot.counter.Some?
    requires Sorted(times) && (times != [] ==> a <= times[0])
    requires b <= slot.counter.value.expires + Spans(rule.window, k)
    ensures Admits(rule, slot, times, a, b) <= rule.limit - slot.counter.value.value + rule.limit * k
    decreases |times|
  {
    if times == [] {
    } else if b <= times[0] {
      NoneAdmittedLater(rule, slot, times, a, b);
    } else {
      AdmitsStep(rule, slot, times, a, b);
      var (next, verdict) := SlotStep(rule, slot, times[0]);
      if verdict == Admitted && slot.counter.value.expires <= times[0] {
        AdmitsFromCounter(rule, next, times[1..], a, b, k - 1);
        assert rule.limit * k == rule.limit + rule.limit * (k - 1);
      } else {
        AdmitsFromCounter(rule, next, times[1..], a, b, k);
      }
    }
  }

  /** From inside the interval with no live counter: k whole lifetimes. */
  lemma {:induction false} AdmitsFromNothing(rule: Rule, slot: Slot, times: seq<real>, a: real, b: real, k: nat)
    requires ValidRule(rule) && CounterInRange(rule, slot)
    requires Sorted(times) && times != [] && a <= times[0] && Live(slot.counter, times[0]).None?
    requires b <= times[0] + Spans(rule.window, k)
    ensures Admits(rule, slot, times, a, b) <= rule.limit * k
    decreases |times|
  {
    if b <= times[0] {
      NoneAdmittedLater(rule, slot, times, a, b);
    } else {
      AdmitsStep(rule, slot, times, a, b);
      var (next, verdict) := SlotStep(rule, slot, times[0]);
      if verdict == Admitted {
        AdmitsFromCounter(rule, next, times[1..], a, b, k - 1);
        assert rule.limit * k == rule.limit + rule.limit * (k - 1);
      } else if |times| > 1 {
        AdmitsFromNothing(rule, next, times[1..], a, b, k);
      }
    }
  }

  lemma {:induction false} AdmitsInWindows(rule: Rule, slot: Slot, times: seq<real>, a: real, b: real, k: nat)
    requires ValidRule(rule) && CounterInRange(rule, slot) && Sorted(times)
    requires b <= a + Spans(rule.window, k)
    ensures Admits(rule, slot, times, a, b) <= rule.limit * k + rule.limit - 1
    decreases |times|
  {
    if times == [] {
    } else if times[0] < a {
      AdmitsStep(rule, slot, times, a, b);
      AdmitsInWindows(rule, SlotStep(rule, slot, times[0]).0, times[1..], a, b, k);
    } else if Live(slot.counter, times[0]).Some? {
      AdmitsFromCounter(rule, slot, times, a, b, k);
    } else {
      AdmitsFromNothing(rule, slot, times, a, b, k);
    }
  }

  /**
   The true sliding bound. An interval no longer than k windows admits at most limit * k + limit - 1
   requests of one key; with k == 1, at most 2 * limit - 1 in any interval of one window.
   */
  lemma SlidingBound(rule: Rule, slot: Slot, times: seq<real>, a: real, b: real, k: nat)
    requires ValidRule(rule) && CounterInRange(rule, slot) && Sorted(times)
    requires b <= a + (k as real) * rule.window
    ensures Admits(rule, slot, times, a, b) <= rule.limit * k + rule.limit - 1
  {
    SpansIsProduct(rule.window, k);
    AdmitsInWindows(rule, slot, times, a, b, k);
  }

  // ---------------------------------------------------------------------------------------------
  // The bound is attained, so the documented "sliding window" of `limit` holds for limit 1 only.

  /** n requests at one moment that the live counter still has room for. */
  lemma {:induction false} BurstAdmitted(rule: Rule, slot: Slot, t: real, n: nat, rest: seq<real>, a: real, b: real)
    requires slot.block.None? && slot.counter.Some? && t < slot.counter.value.expires
    requires 1 <= slot.counter.value.value && slot.counter.value.value + n <= rule.limit
    ensures var after := slot.(counter := Some(slot.counter.value.(value := slot.counter.value.value + n)));
            Admits(rule, slot, Repeat<real>(t, n) + rest, a, b)
            == (if a <= t < b then n else 0) + Admits(rule, after, rest, a, b)
    decreases n
  {
    if n == 0 {
      assert Repeat<real>(t, n) + rest == rest;
    } else {
      var times := Repeat<real>(t, n) + rest;
      assert times[1..] == Repeat<real>(t, n - 1) + rest;
      AdmitsStep(rule, slot, times, a, b);
      BurstAdmitted(rule, SlotStep(rule, slot, t).0, t, n - 1, rest, a, b);
    }
  }

  /** `limit` requests at each of `k` moments one window apart, starting at t. */
  function Waves(rule: Rule, t: real, k: nat): seq<real>
    decreases k
  {
    if k == 0 then [] else Repeat<real>(t, rule.limit) + Waves(rule, t + rule.window, k - 1)
  }

  lemma {:induction false} WavesAdmitted(rule: Rule, slot: Slot, t: real, k: nat, a: real, b: real)
    requires ValidRule(rule) && slot.block.None? && Live(slot.counter, t).None?
    requires a <= t && (k >= 1 ==> t + Spans(rule.window, k - 1) < b)
    ensures Admits(rule, slot, Waves(rule, t, k), a, b) == rule.limit * k
    decreases k
  {
    if k == 0 {
    } else {
      var rest := Waves(rule, t + rule.window, k - 1);
      var times := Waves(rule, t, k);
      assert times[1..] == Repeat<real>(t, rule.limit - 1) + rest;
      AdmitsStep(rule, slot, times, a, b);
      BurstAdmitted(rule, SlotStep(rule, slot, t).0, t, rule.limit - 1, rest, a, b);
      SpansNotNegative(rule.window, k - 1);
      var full := slot.(counter := Some(Entry(rule.limit, t + rule.window)));
      WavesAdmitted(rule, full, t + rule.window, k - 1, a, b);
      assert rule.limit * k == rule.limit + rule.limit * (k - 1);
    }
  }

  lemma {:induction false} WavesSorted(rule: Rule, t: real, k: nat)
    requires ValidRule(rule)
    ensures Sorted(Waves(rule, t, k))
    ensures forall i | 0 <= i < |Waves(rule, t, k)| :: t <= Waves(rule, t, k)[i]
    decreases k
  {
    if k == 0 {
    } else {
      WavesSorted(rule, t + rule.window, k - 1);
    }
  }

  /** One request at 0, then limit - 1 half a window later, then `limit` at each of the next k windows. */
  function WorstRun(rule: Rule, k: nat): seq<real>
    requires ValidRule(rule)
  {
    [0.0] + Repeat<real>(rule.window / 2.0, rule.limit - 1) + Waves(rule, rule.window, k)
  }

  /** The sliding bound cannot be improved, for any rule and any number of windows. */
  lemma SlidingBoundAttained(rule: Rule, k: nat)
    requires ValidRule(rule) && k >= 1
    ensures Sorted(WorstRun(rule, k))
    ensures var a := rule.window / 2.0;
            Admits(rule, EMPTY_SLOT, WorstRun(rule, k), a, a + (k as real) * rule.window)
            == rule.limit * k + rule.limit - 1
  {
    WavesSorted(rule, rule.window, k);
    SpansIsProduct(rule.window, k);
    WorstRunAdmits(rule, k, rule.window / 2.0, rule.window / 2.0 + (k as real) * rule.window);
  }

  lemma WorstRunAdmits(rule: Rule, k: nat, a: real, b: real)
    requires ValidRule(rule) && k >= 1 && a == rule.window / 2.0 && b == a + Spans(rule.window, k)
    ensures Admits(rule, EMPTY_SLOT, WorstRun(rule, k), a, b) == rule.limit * k + rule.limit - 1
  {
    var times, waves := WorstRun(rule, k), Waves(rule, rule.window, k);
    assert times[1..] == Repeat<real>(a, rule.limit - 1) + waves;
    SpansNotNegative(rule.window, k - 1);
    AdmitsStep(rule, EMPTY_SLOT, times, a, b);
    var first := SlotStep(rule, EMPTY_SLOT, 0.0).0;
    assert first == Slot(Some(Entry(1, rule.window)), None);
    BurstAdmitted(rule, first, a, rule.limit - 1, waves, a, b);
    var full := first.(counter := Some(first.counter.value.(value := 1 + (rule.limit - 1))));
    WavesAdmitted(rule, full, rule.window, k, a, b);
    assert Admits(rule, EMPTY_SLOT, times, a, b) == Admits(rule, first, times[1..], a, b);
    assert Admits(rule, first, times[1..], a, b) == (rule.limit - 1) + Admits(rule, full, waves, a, b);
  }

  /** The documented promise: never more than `limit` admitted in an interval of one window. */
  ghost predicate SlidingWindowPromise(rule: Rule) {
    forall times, a, b | Sorted(times) && b <= a + rule.window :: Admits(rule, EMPTY_SLOT, times, a, b) <= rule.limit
  }

  /** The promise holds exactly for rules that allow one request; none of the configured rules does. */
  lemma SlidingWindowPromiseIffLimitOne(rule: Rule)
    requires ValidRule(rule)
    ensures SlidingWindowPromise(rule) <==> rule.limit == 1
  {
    assert (1 as real) * rule.window == rule.window;
    if rule.limit == 1 {
      forall times, a, b | Sorted(times) && b <= a + rule.window
        ensures Admits(rule, EMPTY_SLOT, times, a, b) <= rule.limit
      {
        SlidingBound(rule, EMPTY_SLOT, times, a, b, 1);
      }
    } else {
      SlidingBoundAttained(rule, 1);
    }
  }

  // ---------------------------------------------------------------------------------------------
  // The block.

  /**
   After a limit rejection at time t nothing is admitted before t + BLOCK_DURATION, however the key is
   asked, and the rejections do not prolong the block; the first request after it is admitted with a
   fresh count of 1, because the counter that caused the block has expired by then.
   */
  lemma {:induction false} BlockSoundness(rule: Rule, slot: Slot, t: real, times: seq<real>)
    requires ValidRule(rule) && SlotInv(rule, slot, t)
    requires SlotStep(rule, slot, t).1 == LimitRejected
    requires Sorted(times) && forall x | x in times :: t <= x < t + BLOCK_DURATION
    ensures var blocked := SlotStep(rule, slot, t).0;
            && (forall v | v in Verdicts(rule, blocked, times) :: v == Blocked)
            && SlotAfter(rule, blocked, times) == blocked
            && (forall now | t + BLOCK_DURATION <= now ::
                  var (next, verdict) := SlotStep(rule, blocked, now);
                  verdict == Admitted && next.counter == Some(Entry(1, now + rule.window)))
  {
    BlockedThroughout(rule, SlotStep(rule, slot, t).0, times);
  }

  lemma {:induction false} BlockedThroughout(rule: Rule, slot: Slot, times: seq<real>)
    requires forall x | x in times :: Count(slot.block, x) != 0
    ensures forall v | v in Verdicts(rule, slot, times) :: v == Blocked
    ensures SlotAfter(rule, slot, times) == slot
  {
    if times == [] {
    } else {
      assert times[0] in times;
      BlockedThroughout(rule, slot, times[1..]);
    }
  }
}
