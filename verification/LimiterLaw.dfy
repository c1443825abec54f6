/**
 The limiter without its cache: what a request of one key is answered, said in terms of the times of the earlier
 requests and the answers they got, and nothing else.
 */
module LimiterLaw {
  import opened Common
  import opened RateLimit

  /** An earlier request went over the limit less than 300 seconds before t. */
  ghost predicate BlockedAt(ts: seq<real>, vs: seq<Verdict>, t: real)
    requires |ts| == |vs|
  {
    exists i: nat :: i < |vs| && vs[i] == LimitRejected && t < ts[i] + 300.0
  }

  /** The i-th request starts a counter life: it is admitted, and every life started before is over by then. */
  ghost predicate StartsLife(rule: Rule, ts: seq<real>, vs: seq<Verdict>, i: nat)
    requires i < |ts| == |vs|
    decreases i
  {
    vs[i] == Admitted && forall k: nat | k < i :: StartsLife(rule, ts, vs, k) ==> ts[k] + rule.window <= ts[i]
  }

  /** How many requests have been admitted since the i-th, itself included. */
  function AdmittedSince(vs: seq<Verdict>, i: nat): nat {
    if |vs| <= i then 0
    else AdmittedSince(vs[..|vs| - 1], i) + if vs[|vs| - 1] == Admitted then 1 else 0
  }

  /** The counter life that contains t has admitted as many as the rule allows. */
  ghost predicate UsedUpAt(rule: Rule, ts: seq<real>, vs: seq<Verdict>, t: real)
    requires |ts| == |vs|
  {
    exists i: nat :: i < |vs| && StartsLife(rule, ts, vs, i) && t < ts[i] + rule.window && AdmittedSince(vs, i) >= rule.limit
  }

  /** A request at t, after requests at ts that were answered vs, is answered v. */
  ghost predicate Due(rule: Rule, ts: seq<real>, vs: seq<Verdict>, t: real, v: Verdict)
    requires |ts| == |vs|
  {
    && (v == Blocked <==> BlockedAt(ts, vs, t))
    && (v == LimitRejected <==> !BlockedAt(ts, vs, t) && UsedUpAt(rule, ts, vs, t))
    && (v == Admitted <==> !BlockedAt(ts, vs, t) && !UsedUpAt(rule, ts, vs, t))
  }

  ghost predicate Lawful(rule: Rule, ts: seq<real>, vs: seq<Verdict>) {
    |vs| == |ts| && forall j: nat | j < |ts| :: Due(rule, ts[..j], vs[..j], ts[j], vs[j])
  }

  // ---------------------------------------------------------------------------------------------
  // What the two cache entries know of the history.

  ghost predicate BlockTracks(block: Option<Entry>, ts: seq<real>, vs: seq<Verdict>)
    requires |ts| == |vs|
  {
    match block
    case None => LimitRejected !in vs
    case Some(e) =>
      && e.value == 1
      && exists i: nat :: i < |vs| && vs[i] == LimitRejected && e.expires == ts[i] + 300.0
                          && forall k: nat | k < |vs| && vs[k] == LimitRejected :: ts[k] <= ts[i]
  }

  /** The i-th request started the last life, which ends at e.expires and has admitted e.value. */
  ghost predicate LastLife(rule: Rule, e: Entry, ts: seq<real>, vs: seq<Verdict>, i: nat)
    requires |ts| == |vs|
  {
    && i < |vs| && StartsLife(rule, ts, vs, i)
    && e.expires == ts[i] + rule.window && e.value == AdmittedSince(vs, i)
    && forall k: nat | k < |vs| && StartsLife(rule, ts, vs, k) && k != i :: ts[k] + rule.window <= ts[i]
  }

  ghost predicate CounterTracks(rule: Rule, counter: Option<Entry>, ts: seq<real>, vs: seq<Verdict>)
    requires |ts| == |vs|
  {
    match counter
    case None => forall k: nat | k < |vs| :: !StartsLife(rule, ts, vs, k)
    case Some(e) => e.value >= 1 && exists i: nat :: LastLife(rule, e, ts, vs, i)
  }

  ghost predicate Tracks(rule: Rule, slot: Slot, ts: seq<real>, vs: seq<Verdict>) {
    |ts| == |vs| && BlockTracks(slot.block, ts, vs) && CounterTracks(rule, slot.counter, ts, vs)
  }

  ghost predicate NotBefore(ts: seq<real>, t: real) {
    forall i | 0 <= i < |ts| :: ts[i] <= t
  }

  lemma BlockLive(block: Option<Entry>, ts: seq<real>, vs: seq<Verdict>, t: real)
    requires |ts| == |vs| && BlockTracks(block, ts, vs)
    ensures Count(block, t) != 0 <==> BlockedAt(ts, vs, t)
  {
  }

  lemma CounterLive(rule: Rule, counter: Option<Entry>, ts: seq<real>, vs: seq<Verdict>, t: real)
    requires |ts| == |vs| && CounterTracks(rule, counter, ts, vs) && NotBefore(ts, t) && rule.limit >= 1
    ensures Count(counter, t) >= rule.limit <==> UsedUpAt(rule, ts, vs, t)
    ensures Count(counter, t) != 0 <==> exists k: nat :: k < |vs| && StartsLife(rule, ts, vs, k) && t < ts[k] + rule.window
  {
    if counter.Some? {
      var i: nat :| LastLife(rule, counter.value, ts, vs, i);
      forall k: nat | k < |vs| && StartsLife(rule, ts, vs, k) && t < ts[k] + rule.window
        ensures k == i
      {
        assert ts[i] <= t;
      }
    }
  }

  // ---------------------------------------------------------------------------------------------
  // One request more.

  lemma {:induction false} StartsLifeInPrefix(rule: Rule, ts: seq<real>, vs: seq<Verdict>, t: real, v: Verdict, i: nat)
    requires i < |ts| == |vs|
    ensures StartsLife(rule, ts + [t], vs + [v], i) <==> StartsLife(rule, ts, vs, i)
    decreases i
  {
    forall k: nat | k < i
      ensures StartsLife(rule, ts + [t], vs + [v], k) <==> StartsLife(rule, ts, vs, k)
    {
      StartsLifeInPrefix(rule, ts, vs, t, v, k);
    }
  }

  lemma StartsLifeAtEnd(rule: Rule, ts: seq<real>, vs: seq<Verdict>, t: real, v: Verdict)
    requires |ts| == |vs|
    ensures StartsLife(rule, ts + [t], vs + [v], |ts|)
            <==> v == Admitted && !exists k: nat :: k < |vs| && StartsLife(rule, ts, vs, k) && t < ts[k] + rule.window
  {
    forall k: nat | k < |ts|
      ensures StartsLife(rule, ts + [t], vs + [v], k) <==> StartsLife(rule, ts, vs, k)
    {
      StartsLifeInPrefix(rule, ts, vs, t, v, k);
    }
  }

  lemma AdmittedSinceOne(vs: seq<Verdict>, v: Verdict, i: nat)
    requires i <= |vs|
    ensures AdmittedSince(vs + [v], i) == AdmittedSince(vs, i) + if v == Admitted then 1 else 0
    ensures AdmittedSince(vs, |vs|) == 0
  {
    assert (vs + [v])[..|vs|] == vs;
  }

  lemma StepIsDue(rule: Rule, slot: Slot, ts: seq<real>, vs: seq<Verdict>, t: real)
    requires rule.limit >= 1 && Tracks(rule, slot, ts, vs) && NotBefore(ts, t)
    ensures Due(rule, ts, vs, t, SlotStep(rule, slot, t).1)
  {
    BlockLive(slot.block, ts, vs, t);
    CounterLive(rule, slot.counter, ts, vs, t);
  }

  lemma StepTracksBlock(rule: Rule, slot: Slot, ts: seq<real>, vs: seq<Verdict>, t: real)
    requires Tracks(rule, slot, ts, vs) && NotBefore(ts, t)
    ensures var (next, v) := SlotStep(rule, slot, t);
            BlockTracks(next.block, ts + [t], vs + [v])
  {
    var (next, v) := SlotStep(rule, slot, t);
    if v == LimitRejected {
      assert (vs + [v])[|vs|] == LimitRejected && (ts + [t])[|vs|] == t;
    } else if slot.block.Some? {
      var i: nat :| i < |vs| && vs[i] == LimitRejected && slot.block.value.expires == ts[i] + 300.0
                    && forall k: nat | k < |vs| && vs[k] == LimitRejected :: ts[k] <= ts[i];
      assert (vs + [v])[i] == LimitRejected && (ts + [t])[i] == ts[i];
    }
  }

  lemma LastLifeGoesOn(rule: Rule, e: Entry, ts: seq<real>, vs: seq<Verdict>, t: real, v: Verdict, i: nat)
    requires |ts| == |vs| && LastLife(rule, e, ts, vs, i)
    requires !StartsLife(rule, ts + [t], vs + [v], |ts|)
    ensures LastLife(rule, e.(value := e.value + if v == Admitted then 1 else 0), ts + [t], vs + [v], i)
  {
    AdmittedSinceOne(vs, v, i);
    forall k: nat | k < |ts|
      ensures StartsLife(rule, ts + [t], vs + [v], k) <==> StartsLife(rule, ts, vs, k)
    {
      StartsLifeInPrefix(rule, ts, vs, t, v, k);
    }
  }

  lemma LifeBegins(rule: Rule, ts: seq<real>, vs: seq<Verdict>, t: real)
    requires |ts| == |vs| && StartsLife(rule, ts + [t], vs + [Admitted], |ts|)
    ensures LastLife(rule, Entry(1, t + rule.window), ts + [t], vs + [Admitted], |ts|)
  {
    AdmittedSinceOne(vs, Admitted, |vs|);
  }

  lemma StepTracksCounter(rule: Rule, slot: Slot, ts: seq<real>, vs: seq<Verdict>, t: real)
    requires rule.limit >= 1 && Tracks(rule, slot, ts, vs) && NotBefore(ts, t)
    ensures var (next, v) := SlotStep(rule, slot, t);
            CounterTracks(rule, next.counter, ts + [t], vs + [v])
  {
    var (next, v) := SlotStep(rule, slot, t);
    CounterLive(rule, slot.counter, ts, vs, t);
    StartsLifeAtEnd(rule, ts, vs, t, v);
    if StartsLife(rule, ts + [t], vs + [v], |ts|) {
      LifeBegins(rule, ts, vs, t);
    } else if slot.counter.Some? {
      var i: nat :| LastLife(rule, slot.counter.value, ts, vs, i);
      LastLifeGoesOn(rule, slot.counter.value, ts, vs, t, v, i);
    } else {
      forall k: nat | k < |ts|
        ensures !StartsLife(rule, ts + [t], vs + [v], k)
      {
        StartsLifeInPrefix(rule, ts, vs, t, v, k);
      }
    }
  }

  // ---------------------------------------------------------------------------------------------
  // Runs.

  lemma {:induction false} RunSnoc(rule: Rule, slot: Slot, ts: seq<real>, t: real)
    ensures var (next, v) := SlotStep(rule, SlotAfter(rule, slot, ts), t);
            && Verdicts(rule, slot, ts + [t]) == Verdicts(rule, slot, ts) + [v]
            && SlotAfter(rule, slot, ts + [t]) == next
    decreases |ts|
  {
    if ts == [] {
      assert ts + [t] == [t] && [t][1..] == [];
    } else {
      assert (ts + [t])[1..] == ts[1..] + [t];
      RunSnoc(rule, SlotStep(rule, slot, ts[0]).0, ts[1..], t);
    }
  }

  lemma {:induction false} SlotTracksHistory(rule: Rule, ts: seq<real>)
    requires rule.limit >= 1 && Sorted(ts)
    ensures Tracks(rule, SlotAfter(rule, EMPTY_SLOT, ts), ts, Verdicts(rule, EMPTY_SLOT, ts))
    decreases |ts|
  {
    if ts == [] {
    } else {
      var before, t := ts[..|ts| - 1], ts[|ts| - 1];
      assert ts == before + [t];
      SlotTracksHistory(rule, before);
      RunSnoc(rule, EMPTY_SLOT, before, t);
      StepTracksBlock(rule, SlotAfter(rule, EMPTY_SLOT, before), before, Verdicts(rule, EMPTY_SLOT, before), t);
      StepTracksCounter(rule, SlotAfter(rule, EMPTY_SLOT, before), before, Verdicts(rule, EMPTY_SLOT, before), t);
    }
  }

  lemma {:induction false} VerdictsAreLawful(rule: Rule, ts: seq<real>)
    requires rule.limit >= 1 && Sorted(ts)
    ensures Lawful(rule, ts, Verdicts(rule, EMPTY_SLOT, ts))
    decreases |ts|
  {
    if ts == [] {
    } else {
      var before, t := ts[..|ts| - 1], ts[|ts| - 1];
      var vs := Verdicts(rule, EMPTY_SLOT, before);
      assert ts == before + [t];
      VerdictsAreLawful(rule, before);
      RunSnoc(rule, EMPTY_SLOT, before, t);
      SlotTracksHistory(rule, before);
      StepIsDue(rule, SlotAfter(rule, EMPTY_SLOT, before), before, vs, t);
      LawfulSnoc(rule, before, vs, t, Verdicts(rule, EMPTY_SLOT, ts)[|ts| - 1]);
    }
  }

  lemma LawfulSnoc(rule: Rule, ts: seq<real>, vs: seq<Verdict>, t: real, v: Verdict)
    requires Lawful(rule, ts, vs) && Due(rule, ts, vs, t, v)
    ensures Lawful(rule, ts + [t], vs + [v])
  {
    var ts', vs' := ts + [t], vs + [v];
    forall j: nat | j < |ts'|
      ensures Due(rule, ts'[..j], vs'[..j], ts'[j], vs'[j])
    {
      if j < |ts| {
        assert ts'[..j] == ts[..j] && vs'[..j] == vs[..j];
      } else {
        assert ts'[..j] == ts && vs'[..j] == vs;
      }
    }
  }

  lemma DueUnique(rule: Rule, ts: seq<real>, vs: seq<Verdict>, t: real, v: Verdict, w: Verdict)
    requires |ts| == |vs| && Due(rule, ts, vs, t, v) && Due(rule, ts, vs, t, w)
    ensures v == w
  {
  }

  lemma DueAt(rule: Rule, ts: seq<real>, vs: seq<Verdict>, j: nat)
    requires Lawful(rule, ts, vs) && j < |ts|
    ensures Due(rule, ts[..j], vs[..j], ts[j], vs[j]) && vs[..j + 1] == vs[..j] + [vs[j]]
  {
  }

  lemma {:induction false} LawfulUnique(rule: Rule, ts: seq<real>, vs: seq<Verdict>, ws: seq<Verdict>, n: nat)
    requires Lawful(rule, ts, vs) && Lawful(rule, ts, ws) && n <= |ts|
    ensures vs[..n] == ws[..n]
    decreases n
  {
    if n == 0 {
    } else {
      var j := n - 1;
      LawfulUnique(rule, ts, vs, ws, j);
      DueAt(rule, ts, vs, j);
      DueAt(rule, ts, ws, j);
      DueUnique(rule, ts[..j], vs[..j], ts[j], vs[j], ws[j]);
    }
  }

  /**
   The limiter's law. On every sorted run from an empty cache the answers are those, and only those, for which: a
   request is blocked exactly if an earlier one went over the limit less than 300 seconds before; it goes over the
   limit exactly if it is not blocked and `limit` earlier requests were admitted in the counter life that contains
   it; and it is admitted otherwise.
   */
  lemma AnswersAreLawful(rule: Rule, ts: seq<real>, vs: seq<Verdict>)
    requires rule.limit >= 1 && Sorted(ts)
    ensures vs == Verdicts(rule, EMPTY_SLOT, ts) <==> Lawful(rule, ts, vs)
  {
    VerdictsAreLawful(rule, ts);
    if Lawful(rule, ts, vs) {
      LawfulUnique(rule, ts, vs, Verdicts(rule, EMPTY_SLOT, ts), |ts|);
      assert vs[..|ts|] == vs;
    }
  }
}
