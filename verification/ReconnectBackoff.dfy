/** The bus subscriber's reconnect delays. */
module ReconnectBackoff {
  /** How reading an established stream ended.  A rejected read counts as the end of the stream. */
  datatype Ending = Ended | ReadRejected | Threw

  /** Refused: the fetch failed, or its response was not OK or had no body. */
  datatype Attempt = Refused | Connected(ending: Ending) {
    predicate Established() {
      Connected?
    }

    /** The reader catches a rejected read and returns; only a throw while reading makes the attempt a failed one. */
    predicate HasFailed() {
      Refused? || ending == Threw
    }
  }

  function Pow2(j: nat): nat {
    if j == 0 then 1 else 2 * Pow2(j - 1)
  }

  function Min(a: nat, b: nat): nat {
    if a <= b then a else b
  }

  /** The delay after `j` failures since the last established connection. */
  function Delay(j: nat, min: nat, max: nat): nat {
    if j == 0 then min else Min(max, min * Pow2(j))
  }

  /** Failed attempts since the last established connection reset the delay, that connection's own failure included. */
  function Failures(attempts: seq<Attempt>): nat {
    if attempts == [] then 0
    else
      var last := attempts[|attempts| - 1];
      (if last.Established() then 0 else Failures(attempts[..|attempts| - 1])) + (if last.HasFailed() then 1 else 0)
  }

  /** The failures that count when attempt `k` goes to sleep: its own counts only for the next one. */
  function FailuresBefore(attempts: seq<Attempt>, k: nat): nat
    requires k < |attempts|
  {
    if attempts[k].Established() then 0 else Failures(attempts[..k])
  }

  lemma DelayDoubles(j: nat, min: nat, max: nat)
    ensures Min(Delay(j, min, max) * 2, max) == Delay(j + 1, min, max)
  {
    assert min * Pow2(j + 1) == 2 * (min * Pow2(j));
  }

  /** The loop over the attempts made before the subscription is aborted: the delay slept after each. */
  method ReconnectDelays(attempts: seq<Attempt>, min: nat, max: nat) returns (delays: seq<nat>)
    ensures |delays| == |attempts|
    ensures forall k :: 0 <= k < |attempts| ==> delays[k] == Delay(FailuresBefore(attempts, k), min, max)
    ensures forall k :: 0 <= k < |attempts| && attempts[k].Established() ==> delays[k] == min
  {
    delays := [];
    var backoff := min;
    for k := 0 to |attempts|
      invariant |delays| == k
      invariant backoff == Delay(Failures(attempts[..k]), min, max)
      invariant forall i :: 0 <= i < k ==> delays[i] == Delay(FailuresBefore(attempts, i), min, max)
    {
      assert attempts[..k + 1][..k] == attempts[..k];
      var attemptFailed := false;
      match attempts[k] {
        case Refused => attemptFailed := true;
        case Connected(ending) =>
          backoff := min;
          if ending == Threw {
            attemptFailed := true;
          }
      }
      delays := delays + [backoff];
      DelayDoubles(FailuresBefore(attempts, k), min, max);
      if attemptFailed {
        backoff := Min(backoff * 2, max);
      }
    }
  }

  // ---- what the delays are like, given the configured min <= max ----

  lemma {:induction false} Pow2Grows(i: nat, j: nat)
    requires i <= j
    ensures 0 < Pow2(i) <= Pow2(j) && j < Pow2(j)
    decreases j
  {
    if i < j {
      Pow2Grows(i, j - 1);
    } else if j > 0 {
      Pow2Grows(i - 1, j - 1);
    }
  }

  /** The delay is exactly min * 2^j, capped at max. */
  lemma DelayIsCappedPower(j: nat, min: nat, max: nat)
    requires min <= max
    ensures Delay(j, min, max) == Min(max, min * Pow2(j))
    ensures min <= Delay(j, min, max) <= max
  {
    Pow2Grows(0, j);
    assert min * 1 <= min * Pow2(j);
  }

  lemma DelayMonotone(i: nat, j: nat, min: nat, max: nat)
    requires min <= max && i <= j
    ensures Delay(i, min, max) <= Delay(j, min, max)
  {
    DelayIsCappedPower(i, min, max);
    DelayIsCappedPower(j, min, max);
    Pow2Grows(i, j);
    ScaleMonotone(min, Pow2(i), Pow2(j));
  }

  lemma ScaleMonotone(m: nat, a: nat, b: nat)
    requires a <= b
    ensures m * a <= m * b
  {
  }

  /** A positive delay reaches the cap after at most `max` failures and stays there. */
  lemma DelaySaturates(j: nat, min: nat, max: nat)
    requires 0 < min <= max <= j
    ensures Delay(j, min, max) == max
  {
    Pow2Grows(0, j);
    ScaleMonotone(Pow2(j), 1, min);
  }

  /** Between two resets the delays never decrease. */
  lemma DelaysGrowUntilReset(attempts: seq<Attempt>, k: nat, min: nat, max: nat)
    requires min <= max && k + 1 < |attempts| && !attempts[k + 1].Established()
    ensures Delay(FailuresBefore(attempts, k), min, max) <= Delay(FailuresBefore(attempts, k + 1), min, max)
  {
    assert attempts[..k + 1][..k] == attempts[..k];
    DelayMonotone(FailuresBefore(attempts, k), FailuresBefore(attempts, k + 1), min, max);
  }

  /** Streams that end, broken or not, and then one refusal: the minimum is slept after each of these attempts. */
  lemma BrokenStreamsAreNoFailures(attempts: seq<Attempt>, min: nat, max: nat, k: nat)
    requires k < |attempts| && forall i :: 0 <= i < k ==> attempts[i].Connected? && attempts[i].ending != Threw
    ensures Delay(FailuresBefore(attempts, k), min, max) == min
  {
    if k > 0 && attempts[k] == Refused {
      assert attempts[..k][k - 1] == attempts[k - 1];
    }
  }

  /**
   * Attempt `k` is refused and the last connection was attempt `e`: every refusal in between counts, and the
   * connection itself if it threw.
   */
  lemma {:induction false} FailuresSince(attempts: seq<Attempt>, e: nat, k: nat)
    requires e < k < |attempts| && attempts[e].Connected? && forall i :: e < i <= k ==> attempts[i] == Refused
    ensures FailuresBefore(attempts, k) == k - 1 - e + (if attempts[e].ending == Threw then 1 else 0)
    decreases k
  {
    assert attempts[..k][..k - 1] == attempts[..k - 1];
    if e < k - 1 { FailuresSince(attempts, e, k - 1); }
  }

  /** Before the first connection every attempt made so far counts. */
  lemma {:induction false} FailuresFromStart(attempts: seq<Attempt>, k: nat)
    requires k < |attempts| && forall i :: 0 <= i <= k ==> attempts[i] == Refused
    ensures FailuresBefore(attempts, k) == k
  {
    if k == 0 {
    } else {
      assert attempts[..k][..k - 1] == attempts[..k - 1];
      FailuresFromStart(attempts, k - 1);
    }
  }
}
