/** Small helpers shared by every part of the model. */
module Common {

  datatype Option<+T> = None | Some(value: T)

  function Repeat<T>(x: T, n: nat): (xs: seq<T>)
    ensures |xs| == n && forall i | 0 <= i < n :: xs[i] == x
  {
    seq(n, _ => x)
  }

  /** The sequence with its i-th element taken out. */
  function Without<T>(xs: seq<T>, i: nat): (ys: seq<T>)
    requires i < |xs|
    ensures |ys| == |xs| - 1
    ensures forall k | 0 <= k < |ys| :: ys[k] == xs[if k < i then k else k + 1]
  {
    xs[..i] + xs[i + 1..]
  }

  /** Non-decreasing clock readings. */
  ghost predicate Sorted(times: seq<real>) {
    forall i, j | 0 <= i < j < |times| :: times[i] <= times[j]
  }

  /** The same for things that happen at a time. */
  ghost predicate Chronological<T>(xs: seq<T>, time: T -> real) {
    forall i, j | 0 <= i < j < |xs| :: time(xs[i]) <= time(xs[j])
  }

  /** k spans of one length end to end. */
  function Spans(length: real, k: nat): real {
    if k == 0 then 0.0 else length + Spans(length, k - 1)
  }

  lemma {:induction false} SpansIsProduct(length: real, k: nat)
    ensures Spans(length, k) == (k as real) * length
  {
    if k == 0 {
    } else {
      SpansIsProduct(length, k - 1);
      var before := (k - 1) as real;
      assert k as real == 1.0 + before;
      assert (1.0 + before) * length == length + before * length;
    }
  }

  lemma {:induction false} SpansNotNegative(length: real, k: nat)
    requires length > 0.0
    ensures Spans(length, k) >= 0.0
  {
    if k == 0 {
    } else {
      SpansNotNegative(length, k - 1);
    }
  }
}
