/**
 The lockout when logins of one user overlap. The lock is looked at in one step; after the credential check the
 row is read in a second step and written back in a third, with no lock on the row in between. What is written
 is computed from what was read, so a late save undoes the saves since its read.

 `saves` and `recorded` are history: how often the two columns have been written, and how many of these writes
 recorded a failure. A reading carries the value of `saves` at its read, which nothing the code does depends on.
 */
module LockoutRace {
  import opened Common
  import opened Lockout

  /** A login between the read of its user and the save. */
  datatype Reading = Reading(seen: Account, at: nat)

  datatype State = State(
    now: real,
    account: Account,
    checking: nat,          // past the lock check, before the read
    failing: seq<Reading>,  // have read the row to record a failure
    resetting: seq<Reading>, // have read the row after a success
    saves: nat,
    recorded: nat)

  datatype Event =
    | Tick(now: real)
    | Arrive               // a login finds the account locked, or goes on to the check
    | Raise                // its check raises
    | ReadToFail           // its check has failed: the row is read
    | SaveFailure(i: nat)  // the i-th of those saves
    | ReadToReset          // its check has succeeded: the row is read
    | SaveReset(i: nat)    // the i-th of those saves, if there is anything to reset

  function Step(s: State, e: Event): State {
    match e
    case Tick(now) => if now < s.now then s else s.(now := now)
    case Arrive => if IsLocked(s.account, s.now) then s else s.(checking := s.checking + 1)
    case Raise => if s.checking == 0 then s else s.(checking := s.checking - 1)
    case ReadToFail =>
      if s.checking == 0 then s
      else s.(checking := s.checking - 1, failing := s.failing + [Reading(s.account, s.saves)])
    case SaveFailure(i) =>
      if i >= |s.failing| then s
      else
        s.(account := AfterFailure(s.failing[i].seen, s.now), failing := Without(s.failing, i),
           saves := s.saves + 1, recorded := s.recorded + 1)
    case ReadToReset =>
      if s.checking == 0 then s
      else s.(checking := s.checking - 1, resetting := s.resetting + [Reading(s.account, s.saves)])
    case SaveReset(i) =>
      if i >= |s.resetting| then s
      else if s.resetting[i].seen.failures == 0 then s.(resetting := Without(s.resetting, i))
      else
        s.(account := AfterReset(s.resetting[i].seen), resetting := Without(s.resetting, i), saves := s.saves + 1)
  }

  function RunFrom(s: State, es: seq<Event>): State
    decreases |es|
  {
    if es == [] then s else RunFrom(Step(s, es[0]), es[1..])
  }

  lemma {:induction false} RunConcat(s: State, es: seq<Event>, fs: seq<Event>)
    ensures RunFrom(s, es + fs) == RunFrom(RunFrom(s, es), fs)
    decreases |es|
  {
    if es == [] {
      assert es + fs == fs;
    } else {
      assert (es + fs)[1..] == es[1..] + fs;
      RunConcat(Step(s, es[0]), es[1..], fs);
    }
  }

  // ---------------------------------------------------------------------------------------------
  // What survives the lost updates.

  /** The row, and every copy of it in flight, has a lock set exactly when it counts five failures. */
  ghost predicate LocksMatchCounters(s: State) {
    && Inv(s.account)
    && (forall i | 0 <= i < |s.failing| :: Inv(s.failing[i].seen))
    && (forall i | 0 <= i < |s.resetting| :: Inv(s.resetting[i].seen))
  }

  lemma StepKeepsLocks(s: State, e: Event)
    requires LocksMatchCounters(s)
    ensures LocksMatchCounters(Step(s, e))
  {
    var next := Step(s, e);
    forall i | 0 <= i < |next.failing|
      ensures Inv(next.failing[i].seen)
    {
      FailingOrigin(s, e, i);
    }
    forall i | 0 <= i < |next.resetting|
      ensures Inv(next.resetting[i].seen)
    {
      ResettingOrigin(s, e, i);
    }
  }

  /** A copy in flight was in flight before, or has just been read. */
  lemma FailingOrigin(s: State, e: Event, i: nat)
    requires i < |Step(s, e).failing|
    ensures var r := Step(s, e).failing[i];
            r in s.failing || r == Reading(s.account, s.saves)
  {
  }

  lemma ResettingOrigin(s: State, e: Event, i: nat)
    requires i < |Step(s, e).resetting|
    ensures var r := Step(s, e).resetting[i];
            r in s.resetting || r == Reading(s.account, s.saves)
  {
  }

  /** Both columns are saved from one copy, so no interleaving of failures and successes sets them apart. */
  lemma {:induction false} LockSetIffFiveWhenOverlapping(s: State, es: seq<Event>)
    requires LocksMatchCounters(s)
    ensures LocksMatchCounters(RunFrom(s, es))
    decreases |es|
  {
    if es == [] {
    } else {
      StepKeepsLocks(s, es[0]);
      LockSetIffFiveWhenOverlapping(Step(s, es[0]), es[1..]);
    }
  }

  // ---------------------------------------------------------------------------------------------
  // Stretches without a success: p logins in flight, all readings of failures, the clock below b.

  function InFlight(s: State): nat {
    s.checking + |s.failing| + |s.resetting|
  }

  ghost predicate Within(s: State, es: seq<Event>, p: nat, b: real)
    decreases |es|
  {
    && InFlight(s) <= p && s.resetting == [] && s.now < b
    && (es == [] || (!es[0].ReadToReset? && Within(Step(s, es[0]), es[1..], p, b)))
  }

  lemma {:induction false} WithinConcat(s: State, es: seq<Event>, fs: seq<Event>, p: nat, b: real)
    requires Within(s, es, p, b) && Within(RunFrom(s, es), fs, p, b)
    ensures Within(s, es + fs, p, b)
    decreases |es|
  {
    if es == [] {
      assert es + fs == fs;
    } else {
      assert (es + fs)[1..] == es[1..] + fs;
      WithinConcat(Step(s, es[0]), es[1..], fs, p, b);
    }
  }

  /** No save happens between the read and the save of another recording. */
  ghost predicate NoneOvertaken(s: State, es: seq<Event>)
    decreases |es|
  {
    es == [] || (
      && (es[0].SaveFailure? && es[0].i < |s.failing| ==> s.failing[es[0].i].at == s.saves)
      && NoneOvertaken(Step(s, es[0]), es[1..]))
  }

  /** A reading that nothing has been saved since is still what is stored. */
  ghost predicate ReadingsTrue(s: State) {
    forall i | 0 <= i < |s.failing| ::
      s.failing[i].at <= s.saves && (s.failing[i].at == s.saves ==> s.failing[i].seen == s.account)
  }

  /** Once a failure has been recorded on a full counter, only those already in flight can still fail. */
  ghost predicate OrderedInv(s: State, p: nat, b: real) {
    && ReadingsTrue(s)
    && if s.recorded == 0 || s.account.failures < MAX_FAILURES then s.recorded <= s.account.failures
       else s.recorded + InFlight(s) <= p + MAX_FAILURES - 1
            && s.account.lockedUntil.Some? && b <= s.account.lockedUntil.value
  }

  lemma {:induction false} OrderedRun(s: State, es: seq<Event>, p: nat, from: real, b: real)
    requires OrderedInv(s, p, b) && Within(s, es, p, b) && NoneOvertaken(s, es)
    requires from <= s.now && b <= from + LOCK_SECONDS
    ensures OrderedInv(RunFrom(s, es), p, b)
    decreases |es|
  {
    if es == [] {
    } else {
      OrderedRun(Step(s, es[0]), es[1..], p, from, b);
    }
  }

  /**
   If no recording is overtaken by another save, half an hour without a success holds at most p + 4 failed checks
   with p logins in flight, whatever the account and the checks in flight at its start; five with p == 1.
   */
  lemma OrderedLoginsBound(s: State, es: seq<Event>, p: nat, b: real)
    requires p >= 1 && s.recorded == 0 && ReadingsTrue(s)
    requires Within(s, es, p, b) && NoneOvertaken(s, es) && b <= s.now + LOCK_SECONDS
    ensures RunFrom(s, es).recorded <= p + MAX_FAILURES - 1
  {
    OrderedRun(s, es, p, s.now, b);
  }

  // ---------------------------------------------------------------------------------------------
  // The general case. A login that holds back the count v can, after all others have done their worst, set the
  // counter back to v + 1, and the game goes on from there with its place free.

  /** The most failures that q places can record from a counter at v. */
  function Most(q: nat, v: nat): nat
    requires v <= MAX_FAILURES
    decreases MAX_FAILURES - v, q
  {
    if v == MAX_FAILURES then 0 else Most(q, v + 1) + Held(q, v)
  }

  /** How much of it needs a counter at v: the last of q copies of v, saved, adds one and starts over at v + 1. */
  function Held(q: nat, v: nat): nat
    requires v < MAX_FAILURES
    decreases MAX_FAILURES - v, q, 0
  {
    if q == 0 then 0 else Held(q - 1, v) + 1 + Most(q - 1, v + 1)
  }

  function Choose(n: nat, k: nat): nat {
    if k == 0 then 1 else if n == 0 then 0 else Choose(n - 1, k - 1) + Choose(n - 1, k)
  }

  lemma {:induction false} ChooseAll(n: nat, k: nat)
    requires n <= k
    ensures Choose(n, k) == if n == k then 1 else 0
  {
    if n == 0 {
    } else {
      ChooseAll(n - 1, k - 1);
      ChooseAll(n - 1, k);
    }
  }

  /** One place more: it holds v back, the others do their worst, it is saved, and all start over at v + 1. */
  lemma {:induction false} MostOneMore(q: nat, v: nat)
    requires q >= 1 && v < MAX_FAILURES
    ensures Most(q, v) == Most(q - 1, v) + 1 + Most(q, v + 1)
  {
  }

  lemma {:induction false} MostIsChoose(q: nat, v: nat)
    requires v <= MAX_FAILURES
    ensures Most(q, v) + 1 == Choose(q + MAX_FAILURES - v, MAX_FAILURES - v)
    decreases MAX_FAILURES - v, q
  {
    if v == MAX_FAILURES {
    } else if q == 0 {
      MostIsChoose(0, v + 1);
      ChooseAll(MAX_FAILURES - v, MAX_FAILURES - v);
    } else {
      MostOneMore(q, v);
      MostIsChoose(q - 1, v);
      MostIsChoose(q, v + 1);
    }
  }

  lemma {:induction false} HeldGrows(q: nat, r: nat, v: nat)
    requires v < MAX_FAILURES && q <= r
    ensures Held(q, v) <= Held(r, v)
    decreases r
  {
    if q == r {
    } else {
      HeldGrows(q, r - 1, v);
    }
  }

  /** Readings that have seen at most v failures. */
  function Low(rs: seq<Reading>, v: nat): nat {
    if rs == [] then 0 else (if rs[0].seen.failures <= v then 1 else 0) + Low(rs[1..], v)
  }

  lemma {:induction false} LowAppend(rs: seq<Reading>, ss: seq<Reading>, v: nat)
    ensures Low(rs + ss, v) == Low(rs, v) + Low(ss, v)
  {
    if rs == [] {
      assert rs + ss == ss;
    } else {
      assert (rs + ss)[1..] == rs[1..] + ss;
      LowAppend(rs[1..], ss, v);
    }
  }

  lemma {:induction false} LowOrder(rs: seq<Reading>, v: nat, w: nat)
    requires v <= w
    ensures Low(rs, v) <= Low(rs, w) <= |rs|
  {
    if rs == [] {
    } else {
      LowOrder(rs[1..], v, w);
    }
  }

  lemma LowWithout(rs: seq<Reading>, i: nat, v: nat)
    requires i < |rs|
    ensures Low(Without(rs, i), v) + (if rs[i].seen.failures <= v then 1 else 0) == Low(rs, v)
  {
    LowAppend(rs[..i], rs[i + 1..], v);
    LowAppend(rs[..i], rs[i..], v);
    assert rs == rs[..i] + rs[i..];
    assert rs[i..][1..] == rs[i + 1..];
  }

  /** Places that hold, or can still come to hold, a copy with at most v failures. */
  function Reach(s: State, p: nat, v: nat): nat
    requires |s.failing| <= p
  {
    Low(s.failing, v) + if s.account.failures <= v then p - |s.failing| else 0
  }

  lemma ReachAtMost(s: State, p: nat, v: nat)
    requires |s.failing| <= p
    ensures Low(s.failing, v) <= Reach(s, p, v) <= p
  {
    LowOrder(s.failing, v, v);
  }

  /** The account can still let logins in before b. */
  predicate Open(s: State, b: real) {
    s.account.lockedUntil.Some? ==> s.account.lockedUntil.value < b
  }

  const TOP: nat := MAX_FAILURES - 1

  /** What the places in reach of v can still do at level v. */
  function Level(s: State, p: nat, v: nat): int
    requires |s.failing| <= p && v < TOP
  {
    ReachAtMost(s, p, v);
    Held(p, v) - Held(p - Reach(s, p, v), v)
  }

  /** What the levels from v up still allow. */
  function Levels(s: State, p: nat, b: real, v: nat): int
    requires |s.failing| <= p && v <= TOP
    decreases TOP - v
  {
    if v == TOP then (if Open(s, b) then p else s.checking + |s.failing|)
    else Level(s, p, v) + Levels(s, p, b, v + 1)
  }

  lemma HeldAtTop(q: nat)
    ensures Held(q, TOP) == q && Most(q, TOP) == q
  {
    if q == 0 {
    } else {
      HeldAtTop(q - 1);
    }
  }

  lemma {:induction false} LevelsAtMost(s: State, p: nat, b: real, v: nat)
    requires InFlight(s) <= p && v <= TOP
    ensures 0 <= Levels(s, p, b, v) <= Most(p, v)
    decreases TOP - v
  {
    if v == TOP {
      HeldAtTop(p);
    } else {
      ReachAtMost(s, p, v);
      HeldGrows(p - Reach(s, p, v), p, v);
      LevelsAtMost(s, p, b, v + 1);
    }
  }

  /** Reading the row changes no level: the place could have held that copy before. */
  lemma {:induction false} ReadKeepsLevels(s: State, p: nat, b: real, v: nat)
    requires InFlight(s) <= p && s.checking > 0 && v <= TOP
    ensures Levels(Step(s, ReadToFail), p, b, v) == Levels(s, p, b, v)
    decreases TOP - v
  {
    if v == TOP {
    } else {
      LowAppend(s.failing, [Reading(s.account, s.saves)], v);
      ReadKeepsLevels(s, p, b, v + 1);
    }
  }

  lemma MostStep(q: nat, v: nat)
    requires v < MAX_FAILURES
    ensures Most(q, v) == Most(q, v + 1) + Held(q, v)
    ensures Held(q + 1, v) == Held(q, v) + 1 + Most(q, v + 1)
  {
  }

  /** The places whose copies have seen no more than w failures, one of them being saved. */
  function LowPlaces(s: State, i: nat): (low: nat)
    requires i < |s.failing|
    ensures low <= |s.failing|
  {
    LowOrder(s.failing, s.failing[i].seen.failures, s.failing[i].seen.failures);
    Low(s.failing, s.failing[i].seen.failures)
  }

  lemma LevelAboveSave(s: State, i: nat, p: nat, v: nat)
    requires InFlight(s) <= p && i < |s.failing| && s.failing[i].seen.failures < v < TOP
    ensures Level(Step(s, SaveFailure(i)), p, v) <= Level(s, p, v) + Held(p - LowPlaces(s, i), v)
  {
    LowOrder(s.failing, s.failing[i].seen.failures, v);
    ReachAtMost(s, p, v);
    ReachAtMost(Step(s, SaveFailure(i)), p, v);
    HeldGrows(p - Reach(s, p, v), p - LowPlaces(s, i), v);
  }

  /** Above the count w of the copy that is saved, the levels can fill up again, with the places not at w or below. */
  lemma {:induction false} LevelsAboveSave(s: State, i: nat, p: nat, b: real, v: nat)
    requires InFlight(s) <= p && i < |s.failing| && s.failing[i].seen.failures < v <= TOP
    ensures Levels(Step(s, SaveFailure(i)), p, b, v) <= Levels(s, p, b, v) + Most(p - LowPlaces(s, i), v)
    decreases TOP - v
  {
    if v == TOP {
      HeldAtTop(p - LowPlaces(s, i));
    } else {
      LevelsAboveSave(s, i, p, b, v + 1);
      LevelAboveSave(s, i, p, v);
      MostStep(p - LowPlaces(s, i), v);
    }
  }

  lemma LevelBelowSave(s: State, i: nat, p: nat, v: nat)
    requires InFlight(s) <= p && i < |s.failing| && v < s.failing[i].seen.failures && v < TOP
    ensures Level(Step(s, SaveFailure(i)), p, v) <= Level(s, p, v)
  {
    var next := Step(s, SaveFailure(i));
    ReachAtMost(s, p, v);
    ReachAtMost(next, p, v);
    LowWithout(s.failing, i, v);
    HeldGrows(p - Reach(s, p, v), p - Reach(next, p, v), v);
  }

  lemma LevelAtSave(s: State, i: nat, p: nat, v: nat)
    requires InFlight(s) <= p && i < |s.failing| && v == s.failing[i].seen.failures < TOP
    ensures Level(Step(s, SaveFailure(i)), p, v) + 1 + Most(p - LowPlaces(s, i), v + 1) <= Level(s, p, v)
  {
    var next := Step(s, SaveFailure(i));
    ReachAtMost(s, p, v);
    ReachAtMost(next, p, v);
    LowWithout(s.failing, i, v);
    HeldGrows(p - Reach(s, p, v), p - LowPlaces(s, i), v);
    MostStep(p - LowPlaces(s, i), v);
  }

  /** At and below w, a save takes away more than it gives. */
  lemma {:induction false} LevelsBelowSave(s: State, i: nat, p: nat, b: real, v: nat)
    requires LocksMatchCounters(s) && InFlight(s) <= p && i < |s.failing| && b <= s.now + LOCK_SECONDS
    requires v <= TOP && v <= s.failing[i].seen.failures
    ensures Levels(Step(s, SaveFailure(i)), p, b, v) + 1 <= Levels(s, p, b, v)
    decreases TOP - v
  {
    if v == TOP {
    } else if v < s.failing[i].seen.failures {
      LevelsBelowSave(s, i, p, b, v + 1);
      LevelBelowSave(s, i, p, v);
    } else {
      LevelsAboveSave(s, i, p, b, v + 1);
      LevelAtSave(s, i, p, v);
    }
  }

  lemma {:induction false} OtherStepLevels(s: State, e: Event, p: nat, b: real, v: nat)
    requires InFlight(s) <= p && InFlight(Step(s, e)) <= p && s.resetting == [] && s.now < b && v <= TOP
    requires e.Tick? || e.Arrive? || e.Raise? || e.SaveReset?
    ensures Levels(Step(s, e), p, b, v) <= Levels(s, p, b, v)
    decreases TOP - v
  {
    if v == TOP {
    } else {
      OtherStepLevels(s, e, p, b, v + 1);
    }
  }

  lemma StepLevels(s: State, e: Event, p: nat, b: real)
    requires LocksMatchCounters(s) && s.resetting == [] && !e.ReadToReset?
    requires InFlight(s) <= p && InFlight(Step(s, e)) <= p && s.now < b <= s.now + LOCK_SECONDS
    ensures Step(s, e).recorded + Levels(Step(s, e), p, b, 0) <= s.recorded + Levels(s, p, b, 0)
  {
    if e.ReadToFail? && s.checking > 0 {
      ReadKeepsLevels(s, p, b, 0);
    } else if e.SaveFailure? && e.i < |s.failing| {
      LevelsBelowSave(s, e.i, p, b, 0);
    } else if e.Tick? || e.Arrive? || e.Raise? || e.SaveReset? {
      OtherStepLevels(s, e, p, b, 0);
    }
  }

  lemma {:induction false} RunLevels(s: State, es: seq<Event>, p: nat, from: real, b: real)
    requires LocksMatchCounters(s) && Within(s, es, p, b) && from <= s.now && b <= from + LOCK_SECONDS
    ensures InFlight(RunFrom(s, es)) <= p
    ensures RunFrom(s, es).recorded + Levels(RunFrom(s, es), p, b, 0) <= s.recorded + Levels(s, p, b, 0)
    decreases |es|
  {
    if es == [] {
    } else {
      StepKeepsLocks(s, es[0]);
      StepLevels(s, es[0], p, b);
      RunLevels(Step(s, es[0]), es[1..], p, from, b);
    }
  }

  lemma AtMostMost(s: State, es: seq<Event>, p: nat, b: real)
    requires LocksMatchCounters(s) && s.recorded == 0 && Within(s, es, p, b) && b <= s.now + LOCK_SECONDS
    ensures RunFrom(s, es).recorded <= Most(p, 0)
  {
    RunLevels(s, es, p, s.now, b);
    LevelsAtMost(s, p, b, 0);
    LevelsAtMost(RunFrom(s, es), p, b, 0);
  }

  /**
   However logins overlap and whatever saves are lost, half an hour without a success records at most
   C(p + 5, 5) - 1 failures with p logins in flight: 5, 20, 55 for one, two, three.
   */
  lemma OverlappingLoginsBound(s: State, es: seq<Event>, p: nat, b: real)
    requires LocksMatchCounters(s) && s.recorded == 0 && Within(s, es, p, b) && b <= s.now + LOCK_SECONDS
    ensures RunFrom(s, es).recorded <= Choose(p + MAX_FAILURES, MAX_FAILURES) - 1
  {
    AtMostMost(s, es, p, b);
    MostIsChoose(p, 0);
  }

  // ---------------------------------------------------------------------------------------------
  // The bound is attained, so the p + 4 of logins that do not overtake each other fails for every p >= 2.

  const START := State(0.0, NEW_ACCOUNT, 0, [], [], 0, 0)

  /** The counter stands where q free places can go on, none of them taken yet. */
  ghost predicate Free(s: State, q: nat, p: nat, b: real) {
    && s.now < b && s.resetting == [] && s.checking == 0 && |s.failing| + q <= p
    && s.account.failures <= MAX_FAILURES
    && (s.account.failures < MAX_FAILURES ==> s.account.lockedUntil.None?)
  }

  /** The events by which q free places record Most(q, failures) and leave the readings as they were. */
  lemma {:induction false} Exhaust(s: State, q: nat, p: nat, b: real) returns (es: seq<Event>)
    requires Free(s, q, p, b)
    ensures Within(s, es, p, b)
    ensures var t := RunFrom(s, es);
            && t.recorded == s.recorded + Most(q, s.account.failures)
            && t.failing == s.failing && t.resetting == [] && t.checking == 0 && t.now == s.now
    decreases MAX_FAILURES - s.account.failures, q
  {
    var v := s.account.failures;
    if v == MAX_FAILURES || q == 0 {
      NothingWithoutPlaces(v);
      es := [];
    } else {
      var read := HoldBack(s, p, b);
      var held := RunFrom(s, read);
      var others := Exhaust(held, q - 1, p, b);
      var spent := RunFrom(held, others);
      var save := [SaveFailure(|s.failing|)];
      var back := Step(spent, save[0]);
      assert back.failing == s.failing;
      assert RunFrom(spent, save) == RunFrom(back, save[1..]) == back;
      var again := Exhaust(back, q, p, b);
      MostOneMore(q, v);
      RunConcat(held, others, save);
      WithinConcat(held, others, save, p, b);
      RunConcat(held, others + save, again);
      WithinConcat(held, others + save, again, p, b);
      RunConcat(s, read, others + save + again);
      WithinConcat(s, read, others + save + again, p, b);
      es := read + (others + save + again);
    }
  }

  lemma {:induction false} NothingWithoutPlaces(v: nat)
    requires v <= MAX_FAILURES
    ensures Most(0, v) == 0
    decreases MAX_FAILURES - v
  {
    if v == MAX_FAILURES {
    } else {
      NothingWithoutPlaces(v + 1);
    }
  }

  /** A login arrives and reads the row. */
  lemma HoldBack(s: State, p: nat, b: real) returns (es: seq<Event>)
    requires Free(s, 1, p, b) && s.account.failures < MAX_FAILURES
    ensures Within(s, es, p, b)
    ensures RunFrom(s, es) == s.(failing := s.failing + [Reading(s.account, s.saves)])
  {
    es := [Arrive, ReadToFail];
    var arrived := Step(s, Arrive);
    assert es[1..] == [ReadToFail];
    assert RunFrom(arrived, [ReadToFail]) == RunFrom(Step(arrived, ReadToFail), [ReadToFail][1..]);
    assert Within(Step(arrived, ReadToFail), [ReadToFail][1..], p, b);
    assert Within(arrived, [ReadToFail], p, b);
  }

  /** For every p there is a run, all at one moment, that records C(p + 5, 5) - 1 failures of a new account. */
  lemma OverlappingLoginsBoundAttained(p: nat) returns (es: seq<Event>)
    ensures Within(START, es, p, LOCK_SECONDS)
    ensures RunFrom(START, es).recorded == Choose(p + MAX_FAILURES, MAX_FAILURES) - 1
    ensures p >= 2 ==> RunFrom(START, es).recorded > p + MAX_FAILURES - 1
  {
    es := Exhaust(START, p, p, LOCK_SECONDS);
    MostIsChoose(p, 0);
    if p >= 2 {
      MostBeyondOrdered(p);
    }
  }

  lemma {:induction false} MostBeyondOrdered(p: nat)
    requires p >= 2
    ensures Most(p, 0) > p + MAX_FAILURES - 1
    decreases p
  {
    MostOneMore(p, 0);
    if p == 2 {
      MostOfOnePlace(0);
      MostOfOnePlace(1);
      MostOneMore(2, 1);
    } else {
      MostBeyondOrdered(p - 1);
    }
  }

  lemma {:induction false} MostOfOnePlace(v: nat)
    requires v <= MAX_FAILURES
    ensures Most(1, v) == MAX_FAILURES - v
    decreases MAX_FAILURES - v
  {
    if v == MAX_FAILURES {
    } else {
      MostOfOnePlace(v + 1);
      NothingWithoutPlaces(v);
      MostOneMore(1, v);
    }
  }

  /** One stale save is enough: it leaves a locked account unlocked, with a counter of one. */
  lemma StaleSaveUnlocks(s: State, i: nat)
    requires LocksMatchCounters(s) && i < |s.failing| && s.failing[i].seen == NEW_ACCOUNT
    ensures Step(s, SaveFailure(i)).account == Account(1, None)
  {
  }

  // ---------------------------------------------------------------------------------------------
  // Successes.

  /**
   A completed reset clears counter and lock exactly when its read saw a failure or there is none to clear; a success
   that read the row before the failures were saved leaves them. It touches no other login.
   */
  lemma ResetClearsIff(s: State, i: nat)
    requires LocksMatchCounters(s) && i < |s.resetting|
    ensures var after := Step(s, SaveReset(i));
            && (after.account == Account(0, None) <==> s.resetting[i].seen.failures > 0 || s.account.failures == 0)
            && (after.account == Account(0, None) || after.account == s.account)
            && after.failing == s.failing && after.checking == s.checking && after.recorded == s.recorded
            && |after.resetting| == |s.resetting| - 1
  {
  }

  /** Only saves write the account; a recorded failure adds one to what was read and locks from five on. */
  lemma OnlySavesWrite(s: State, e: Event)
    ensures !e.SaveFailure? && !e.SaveReset? ==> Step(s, e).account == s.account && Step(s, e).saves == s.saves
    ensures e.SaveFailure? && e.i < |s.failing| ==>
              var seen, after := s.failing[e.i].seen, Step(s, e).account;
              && after.failures == seen.failures + 1
              && after.lockedUntil == if seen.failures >= 4 then Some(s.now + 1800.0) else seen.lockedUntil
    ensures e.Raise? && s.checking > 0 ==> Step(s, e) == s.(checking := s.checking - 1)
  {
  }

  /** No save of the run, of a failure or a reset, has another save between its read and itself. */
  ghost predicate NoneStale(s: State, es: seq<Event>)
    decreases |es|
  {
    es == [] || (
      && (es[0].SaveFailure? && es[0].i < |s.failing| ==> s.failing[es[0].i].at == s.saves)
      && (es[0].SaveReset? && es[0].i < |s.resetting| ==> s.resetting[es[0].i].at == s.saves)
      && NoneStale(Step(s, es[0]), es[1..]))
  }

  /** How many failures are recorded since the last reset, n of them before this run. */
  function RecordedSinceReset(s: State, es: seq<Event>, n: nat): nat
    decreases |es|
  {
    if es == [] then n
    else
      var m := if es[0].SaveFailure? && es[0].i < |s.failing| then n + 1
               else if es[0].SaveReset? && es[0].i < |s.resetting| then 0
               else n;
      RecordedSinceReset(Step(s, es[0]), es[1..], m)
  }

  /** Every reading that nothing has been saved since is still what is stored. */
  ghost predicate AllReadingsTrue(s: State) {
    && ReadingsTrue(s)
    && forall i | 0 <= i < |s.resetting| ::
         s.resetting[i].at <= s.saves && (s.resetting[i].at == s.saves ==> s.resetting[i].seen == s.account)
  }

  lemma StepKeepsReadings(s: State, e: Event)
    requires AllReadingsTrue(s)
    ensures AllReadingsTrue(Step(s, e))
  {
  }

  /**
   As long as no save is stale, logins may overlap and succeed as they like: the counter is the number of failures
   recorded since the last reset, and a lock is set exactly when these are five or more.
   */
  lemma {:induction false} CounterWhenNoneStale(s: State, es: seq<Event>)
    requires AllReadingsTrue(s) && LocksMatchCounters(s) && NoneStale(s, es)
    ensures var a := RunFrom(s, es).account;
            && a.failures == RecordedSinceReset(s, es, s.account.failures)
            && (a.lockedUntil.Some? <==> RecordedSinceReset(s, es, s.account.failures) >= 5)
    decreases |es|
  {
    if es == [] {
    } else {
      StepKeepsReadings(s, es[0]);
      StepKeepsLocks(s, es[0]);
      CounterWhenNoneStale(Step(s, es[0]), es[1..]);
    }
  }
}
