/** The delay recurrence of `TcpClient::startReconnect`, over 32-bit unsigned fields. */
module Backoff {
  import opened Common

  const RANGE := 0x1_0000_0000

  type uint32 = x: int | 0 <= x < 0x1_0000_0000

  /** `startReconnect` before clamping, without wrap-around. */
  function RawDelay(cur: nat, min: nat, policy: nat): nat
  {
    if policy == 0 then min else if policy == 1 then cur + min else cur * policy
  }

  function Clamp(x: nat, min: nat, max: nat): nat { Min(Max(x, min), max) }

  function NextDelay(cur: nat, min: nat, max: nat, policy: nat): nat
  {
    Clamp(RawDelay(cur, min, policy) % RANGE, min, max)
  }

  /** One step is what unbounded integers would give exactly when nothing wraps, or what is left
      after the wrap is still past the maximum, or the two limits coincide. */
  lemma StepExact(cur: nat, min: nat, max: uint32, policy: nat)
    requires min <= max
    ensures var raw := RawDelay(cur, min, policy);
            NextDelay(cur, min, max, policy) == Clamp(raw, min, max) <==>
            raw < RANGE || raw % RANGE >= max || min == max
  {
  }

  /** The k-th delay from a current delay of 0. */
  function DelayAfter(k: nat, min: nat, max: nat, policy: nat): nat
  {
    if k == 0 then 0 else NextDelay(DelayAfter(k - 1, min, max, policy), min, max, policy)
  }

  function Power(b: nat, e: nat): nat
  {
    if e == 0 then 1 else b * Power(b, e - 1)
  }

  /** Fixed, linear and exponential delays, cut off at the maximum. */
  function ClosedForm(k: nat, min: nat, max: nat, policy: nat): nat
    requires k >= 1
  {
    Min(max, if policy == 0 then min else if policy == 1 then k * min else min * Power(policy, k - 1))
  }

  /** No step from a delay within the limits leaves the 32-bit range. */
  predicate StepsFit(min: nat, max: nat, policy: nat)
  {
    min <= max < RANGE && (policy == 1 ==> max + min < RANGE) && (policy >= 2 ==> max * policy < RANGE)
  }

  lemma ProductMonotone(a: nat, b: nat, c: nat)
    requires a <= b
    ensures a * c <= b * c
  {
  }

  lemma {:induction false} PowerPositive(b: nat, e: nat)
    requires b >= 1
    ensures Power(b, e) >= 1
  {
    if e > 0 {
      PowerPositive(b, e - 1);
      ProductMonotone(1, b, Power(b, e - 1));
    }
  }

  lemma RawFits(cur: nat, min: nat, max: nat, policy: nat)
    requires StepsFit(min, max, policy) && cur <= max
    ensures RawDelay(cur, min, policy) < RANGE
    ensures NextDelay(cur, min, max, policy) == Clamp(RawDelay(cur, min, policy), min, max)
  {
    var raw := RawDelay(cur, min, policy);
    assert raw < RANGE by {
      if policy >= 2 { ProductMonotone(cur, max, policy); }
    }
    hide RawDelay;
    SmallMod(raw);
  }

  lemma SmallMod(x: nat)
    requires x < RANGE
    ensures x % RANGE == x
  {
  }

  lemma {:induction false} DelayClosedForm(k: nat, min: nat, max: nat, policy: nat)
    requires k >= 1 && StepsFit(min, max, policy)
    ensures DelayAfter(k, min, max, policy) == ClosedForm(k, min, max, policy)
  {
    if k == 1 {
      assert DelayAfter(0, min, max, policy) == 0;
      assert Power(policy, 0) == 1 && min * 1 == min;
      RawFits(0, min, max, policy);
    } else {
      var prev := DelayAfter(k - 1, min, max, policy);
      DelayClosedForm(k - 1, min, max, policy);
      RawFits(prev, min, max, policy);
      if policy == 1 {
        assert k * min == (k - 1) * min + min;
        ProductMonotone(1, k - 1, min);
      } else if policy >= 2 {
        ExponentialStep(k, min, max, policy);
      }
    }
  }

  /** Multiplying the clamped delay and clamping again is clamping the product. */
  lemma ExponentialStep(k: nat, min: nat, max: nat, policy: nat)
    requires k >= 2 && policy >= 2 && min <= max
    ensures Clamp(Min(max, min * Power(policy, k - 2)) * policy, min, max) == Min(max, min * Power(policy, k - 1))
  {
    var x := min * Power(policy, k - 2);
    PowerPositive(policy, k - 2);
    ProductMonotone(1, Power(policy, k - 2), min);
    assert x >= min;
    assert min * Power(policy, k - 1) == x * policy by {
      Regroup(min, policy, Power(policy, k - 2));
    }
    ProductMonotone(1, policy, x);
    ProductMonotone(1, policy, max);
  }

  lemma Regroup(a: nat, b: nat, c: nat)
    ensures a * (b * c) == (a * c) * b
  {
    assert a * (b * c) == (a * b) * c == (b * a) * c == b * (a * c);
  }

  // ---- when a delay gets shorter

  /** A step shortens a delay within the limits exactly when the delay is above the minimum and the
      policy is fixed, or the sum or product wraps around to something shorter. */
  lemma ShrinksExactly(cur: nat, min: nat, max: uint32, policy: nat)
    requires min <= cur <= max
    ensures NextDelay(cur, min, max, policy) < cur <==>
            min < cur && if policy == 0 then true
                         else if policy == 1 then cur + min >= RANGE
                         else cur * policy >= RANGE && (cur * policy) % RANGE < cur
  {
    if policy >= 2 {
      ProductMonotone(1, policy, cur);
      if cur * policy < RANGE {
        SmallMod(cur * policy);
      }
    }
  }

  lemma {:induction false} PowerMonotone(b: nat, m: nat, n: nat)
    requires b >= 1 && m <= n
    ensures Power(b, m) <= Power(b, n)
    decreases n - m
  {
    if m < n {
      PowerMonotone(b, m, n - 1);
      ProductMonotone(1, b, Power(b, n - 1));
    }
  }

  lemma {:induction false} DoublesUntilHalf(k: nat)
    requires 1 <= k <= 32
    ensures DelayAfter(k, 1, RANGE - 1, 2) == Power(2, k - 1)
  {
    if k == 1 {
      assert Power(2, 0) == 1;
      assert DelayAfter(0, 1, RANGE - 1, 2) == 0;
    } else {
      DoublesUntilHalf(k - 1);
      PowerPositive(2, k - 2);
      PowerMonotone(2, k - 1, 31);
      Power31();
      SmallMod(2 * Power(2, k - 2));
    }
  }

  lemma Power31()
    ensures Power(2, 31) == RANGE / 2
  {
    assert Power(2, 8) == 0x100;
    assert Power(2, 16) == 0x100 * Power(2, 8);
    assert Power(2, 24) == 0x100 * Power(2, 16);
    assert Power(2, 31) == 0x80 * Power(2, 24);
  }

  /** With a minimum of 1, the largest maximum and policy 2, the 32nd delay is half the range and the
      33rd is 1. */
  lemma DelayCollapses()
    ensures DelayAfter(32, 1, RANGE - 1, 2) == 0x8000_0000 && DelayAfter(33, 1, RANGE - 1, 2) == 1
  {
    DoublesUntilHalf(32);
    Power31();
  }

  // ---- exactly when the delays follow the closed form

  /** The delay `min * policy^j` that is the last one below `max`. */
  function LastBelow(d: nat, max: nat, policy: nat): nat
    requires d > 0 && policy >= 2
    decreases max - d
  {
    if d >= max || d * policy >= max then d else GrowsStrictly(d, policy); LastBelow(d * policy, max, policy)
  }

  lemma GrowsStrictly(d: nat, policy: nat)
    requires d > 0 && policy >= 2
    ensures d * policy > d
  {
    ProductMonotone(2, policy, d);
  }

  /** The product reaches the maximum, wrapped around or not. */
  predicate StillPasses(x: nat, max: nat) { x < RANGE || x % RANGE >= max }

  /** The limits coincide, or the steps that go past the maximum do so even when they wrap: the one
      from the last delay below the maximum, and the one from the maximum itself. */
  predicate Follows(min: nat, max: nat, policy: nat)
  {
    || min == max || policy == 0
    || (policy == 1 && max + min < RANGE)
    || (policy >= 2 && (min == 0 || (StillPasses(LastBelow(min, max, policy) * policy, max) && StillPasses(max * policy, max))))
  }

  /** `LastBelow` is the power it says. */
  lemma {:induction false} LastBelowIs(d: nat, max: nat, policy: nat) returns (j: nat)
    requires 0 < d < max && policy >= 2
    ensures LastBelow(d, max, policy) == d * Power(policy, j) < max <= LastBelow(d, max, policy) * policy
    decreases max - d
  {
    if d * policy >= max {
      j := 0;
      assert d * Power(policy, 0) == d;
    } else {
      GrowsStrictly(d, policy);
      var i := LastBelowIs(d * policy, max, policy);
      j := i + 1;
      assert Power(policy, j) == policy * Power(policy, i);
      Regroup(d, policy, Power(policy, i));
      assert d * Power(policy, j) == (d * policy) * Power(policy, i) by { Reorder(d, policy, Power(policy, i)); }
    }
  }

  lemma Reorder(a: nat, b: nat, c: nat)
    ensures a * (b * c) == (a * b) * c
  {
  }

  /** A power below the maximum whose next one is not is `LastBelow`. */
  lemma {:induction false} LastBelowUnique(d: nat, max: nat, policy: nat, k: nat)
    requires 0 < d && policy >= 2 && d * Power(policy, k) < max <= d * Power(policy, k + 1)
    ensures LastBelow(d, max, policy) == d * Power(policy, k)
    decreases k
  {
    PowerPositive(policy, k);
    ProductMonotone(1, Power(policy, k), d);
    if k == 0 {
      assert d * Power(policy, 0) == d;
      assert Power(policy, 1) == policy * Power(policy, 0) == policy;
    } else {
      Reorder(d, policy, Power(policy, k - 1));
      Reorder(d, policy, Power(policy, k));
      PowerPositive(policy, k - 1);
      ProductMonotone(1, Power(policy, k - 1), d * policy);
      LastBelowUnique(d * policy, max, policy, k - 1);
    }
  }

  /** One step of the exponential policy from a delay of the closed form. */
  lemma FollowsStep(k: nat, min: nat, max: uint32, policy: nat)
    requires k >= 1 && policy >= 2 && 0 < min < max && Follows(min, max, policy)
    ensures NextDelay(ClosedForm(k, min, max, policy), min, max, policy) == ClosedForm(k + 1, min, max, policy)
  {
    var x := min * Power(policy, k - 1);
    var d := Min(max, x);
    ExponentialStep(k + 1, min, max, policy);
    assert Clamp(d * policy, min, max) == ClosedForm(k + 1, min, max, policy);
    Regroup(min, policy, Power(policy, k - 1));
    assert min * Power(policy, k) == x * policy;
    if x < max {
      if x * policy >= max {
        LastBelowUnique(min, max, policy, k - 1);
      }
    }
    StillClamps(d * policy, min, max);
  }

  /** A wrap that still passes the maximum is not seen after clamping. */
  lemma StillClamps(x: nat, min: nat, max: uint32)
    requires min <= max && (x < max || StillPasses(x, max))
    ensures Clamp(x % RANGE, min, max) == Clamp(x, min, max)
  {
    if x < RANGE { SmallMod(x); }
  }

  lemma FirstDelay(min: nat, max: uint32, policy: nat)
    requires min <= max && policy >= 2
    ensures DelayAfter(1, min, max, policy) == min == ClosedForm(1, min, max, policy)
  {
    assert DelayAfter(0, min, max, policy) == 0 && Power(policy, 0) == 1;
    assert 0 * policy == 0 && min * 1 == min;
  }

  lemma {:induction false} ExponentialFollows(k: nat, min: nat, max: uint32, policy: nat)
    requires k >= 1 && policy >= 2 && 0 < min < max && Follows(min, max, policy)
    ensures DelayAfter(k, min, max, policy) == ClosedForm(k, min, max, policy)
  {
    if k == 1 {
      FirstDelay(min, max, policy);
    } else {
      hide Follows, ClosedForm, NextDelay;
      ExponentialFollows(k - 1, min, max, policy);
      FollowsStep(k - 1, min, max, policy);
    }
  }

  lemma {:induction false} ZeroStays(k: nat, max: uint32, policy: nat)
    requires k >= 1 && policy >= 2
    ensures DelayAfter(k, 0, max, policy) == 0 == ClosedForm(k, 0, max, policy)
  {
    assert 0 * Power(policy, k - 1) == 0;
    if k == 1 {
      assert DelayAfter(0, 0, max, policy) == 0;
    } else {
      ZeroStays(k - 1, max, policy);
    }
  }

  lemma FollowsWhen(k: nat, min: nat, max: uint32, policy: nat)
    requires k >= 1 && min <= max && Follows(min, max, policy)
    ensures DelayAfter(k, min, max, policy) == ClosedForm(k, min, max, policy)
  {
    if policy == 0 {
      SmallMod(min);
    } else if min == max {
      LimitsCoincide(k, min, policy);
    } else if policy == 1 {
      DelayClosedForm(k, min, max, policy);
    } else if min == 0 {
      ZeroStays(k, max, policy);
    } else {
      ExponentialFollows(k, min, max, policy);
    }
  }

  lemma LimitsCoincide(k: nat, min: uint32, policy: nat)
    requires k >= 1
    ensures DelayAfter(k, min, min, policy) == ClosedForm(k, min, min, policy)
  {
    ProductMonotone(1, k, min);
    if policy >= 1 {
      PowerPositive(policy, k - 1);
      ProductMonotone(1, Power(policy, k - 1), min);
    }
  }

  lemma {:induction false} PowerGrows(b: nat, e: nat)
    requires b >= 2
    ensures Power(b, e) >= e + 1
  {
    if e > 0 {
      PowerGrows(b, e - 1);
      ProductMonotone(2, b, Power(b, e - 1));
    }
  }

  /** The closed form reaches the maximum and stays there. */
  lemma ReachesMax(min: nat, max: nat, policy: nat)
    requires 0 < min < max && policy >= 1
    ensures ClosedForm(max + 1, min, max, policy) == max == ClosedForm(max + 2, min, max, policy)
  {
    if policy == 1 {
      ProductMonotone(1, min, max + 1);
      ProductMonotone(1, min, max + 2);
      assert min * (max + 1) == (max + 1) * min && min * (max + 2) == (max + 2) * min;
    } else {
      PowerGrows(policy, max);
      PowerGrows(policy, max + 1);
      ProductMonotone(1, min, Power(policy, max));
      ProductMonotone(1, min, Power(policy, max + 1));
    }
  }

  lemma NoDelayYet(min: nat, max: nat, policy: nat)
    ensures DelayAfter(0, min, max, policy) == 0
  {
  }

  lemma DelayStep(k: nat, min: nat, max: nat, policy: nat)
    ensures DelayAfter(k + 1, min, max, policy) == NextDelay(DelayAfter(k, min, max, policy), min, max, policy)
  {
  }

  /** A step that clamps to the maximum passes it. */
  lemma PassesWhenMax(d: nat, min: nat, max: uint32, policy: nat)
    requires min < max && policy >= 1 && NextDelay(d, min, max, policy) == max
    ensures StillPasses(RawDelay(d, min, policy), max)
  {
    hide RawDelay;
  }

  /** The last delay below the maximum is the delay of some step, and the next one is the maximum. */
  lemma LastThenMax(min: nat, max: nat, policy: nat) returns (k: nat)
    requires 0 < min < max && policy >= 2
    ensures k >= 1 && ClosedForm(k, min, max, policy) == LastBelow(min, max, policy)
    ensures ClosedForm(k + 1, min, max, policy) == max
  {
    var j := LastBelowIs(min, max, policy);
    k := j + 1;
    Regroup(min, policy, Power(policy, j));
    assert Power(policy, j + 1) == policy * Power(policy, j);
    hide LastBelow, Power;
  }

  /** If every delay follows the closed form, the steps that pass the maximum do so. */
  lemma OnlyWhen(min: nat, max: uint32, policy: nat)
    requires 0 < min < max && policy >= 1
    requires forall k :: k >= 1 ==> DelayAfter(k, min, max, policy) == ClosedForm(k, min, max, policy)
    ensures Follows(min, max, policy)
  {
    hide NextDelay, ClosedForm, DelayAfter, LastBelow;
    ReachesMax(min, max, policy);
    DelayStep(max + 1, min, max, policy);
    PassesWhenMax(max, min, max, policy);
    if policy == 1 {
      assert (max + min) % RANGE == max + min - RANGE || max + min < RANGE by { OneWrap(max + min); }
    } else {
      var k := LastThenMax(min, max, policy);
      DelayStep(k, min, max, policy);
      PassesWhenMax(LastBelow(min, max, policy), min, max, policy);
    }
  }

  lemma OneWrap(x: nat)
    requires x < 2 * RANGE
    ensures x % RANGE == if x < RANGE then x else x - RANGE
  {
  }

  /** All delays follow the closed form exactly when `Follows` holds of the limits and the policy. */
  lemma FollowsExactly(min: nat, max: uint32, policy: nat)
    requires min <= max
    ensures (forall k :: k >= 1 ==> DelayAfter(k, min, max, policy) == ClosedForm(k, min, max, policy))
            <==> Follows(min, max, policy)
  {
    if Follows(min, max, policy) {
      forall k | k >= 1 ensures DelayAfter(k, min, max, policy) == ClosedForm(k, min, max, policy) {
        FollowsWhen(k, min, max, policy);
      }
    } else if forall k :: k >= 1 ==> DelayAfter(k, min, max, policy) == ClosedForm(k, min, max, policy) {
      OnlyWhen(min, max, policy);
      assert false;
    }
  }

  lemma ClosedFormGrows(k: nat, min: nat, max: nat, policy: nat)
    requires k >= 1
    ensures ClosedForm(k, min, max, policy) <= ClosedForm(k + 1, min, max, policy) <= max
  {
    ProductMonotone(k, k + 1, min);
    if policy >= 2 {
      PowerMonotone(policy, k - 1, k);
      ProductMonotone(Power(policy, k - 1), Power(policy, k), min);
    }
    hide Power;
  }

  /** Delays that follow the closed form never get shorter. */
  lemma DelaysGrow(k: nat, min: nat, max: uint32, policy: nat)
    requires min <= max && Follows(min, max, policy)
    ensures DelayAfter(k, min, max, policy) <= DelayAfter(k + 1, min, max, policy) <= max
  {
    FollowsWhen(k + 1, min, max, policy);
    if k == 0 {
      NoDelayYet(min, max, policy);
    } else {
      hide ClosedForm, DelayAfter, Follows;
      FollowsWhen(k, min, max, policy);
      ClosedFormGrows(k, min, max, policy);
    }
  }

  class ReconnectInfo {
    var minDelay: uint32
    var maxDelay: uint32
    var curDelay: uint32
    var delayPolicy: uint32
    var maxRetryCnt: uint32
    var curRetryCnt: uint32

    constructor ()
      ensures minDelay == 1000 && maxDelay == 60000 && curDelay == 0 && delayPolicy == 2
      ensures maxRetryCnt == RANGE - 1 && curRetryCnt == 0
    {
      minDelay, maxDelay, curDelay, delayPolicy, maxRetryCnt, curRetryCnt := 1000, 60000, 0, 2, RANGE - 1, 0;
    }

    /** The delay of the timer that is set, or none once the retries are used up. */
    method StartReconnect() returns (delay: Option<nat>)
      modifies this`curRetryCnt, this`curDelay
      ensures curRetryCnt == (old(curRetryCnt) + 1) % RANGE
      ensures delay.None? <==> curRetryCnt > maxRetryCnt
      ensures delay.None? ==> curDelay == old(curDelay)
      ensures delay.Some? ==> delay.value == curDelay == NextDelay(old(curDelay), minDelay, maxDelay, delayPolicy)
    {
      curRetryCnt := (curRetryCnt + 1) % RANGE;
      if curRetryCnt > maxRetryCnt {
        return None;
      }
      if delayPolicy == 0 {
        // fixed
        curDelay := minDelay;
      } else if delayPolicy == 1 {
        // linear
        curDelay := (curDelay + minDelay) % RANGE;
      } else {
        // exponential
        curDelay := (curDelay * delayPolicy) % RANGE;
      }
      curDelay := Max(curDelay, minDelay);
      curDelay := Min(curDelay, maxDelay);
      return Some(curDelay);
    }

    /** Every attempt fails: a finite limit is the number of timers set, and their delays follow
        the closed form. */
    method ReconnectUntilGivenUp() returns (delays: seq<nat>)
      requires minDelay <= maxDelay && Follows(minDelay, maxDelay, delayPolicy)
      requires curDelay == 0 && curRetryCnt == 0 && maxRetryCnt < RANGE - 1
      modifies this`curRetryCnt, this`curDelay
      ensures |delays| == maxRetryCnt
      ensures forall i :: 0 <= i < |delays| ==> delays[i] == ClosedForm(i + 1, minDelay, maxDelay, delayPolicy)
      ensures forall i :: 0 <= i < |delays| ==> delays[i] <= maxDelay
      ensures forall i, j :: 0 <= i < j < |delays| ==> delays[i] <= delays[j]
    {
      delays := [];
      hide NextDelay, ClosedForm, DelayAfter, Follows;
      NoDelayYet(minDelay, maxDelay, delayPolicy);
      while true
        invariant |delays| == curRetryCnt <= maxRetryCnt
        invariant curDelay == DelayAfter(|delays|, minDelay, maxDelay, delayPolicy)
        invariant forall i :: 0 <= i < |delays| ==> delays[i] == ClosedForm(i + 1, minDelay, maxDelay, delayPolicy)
        invariant forall i :: 0 <= i < |delays| ==> delays[i] <= curDelay <= maxDelay
        invariant forall i, j :: 0 <= i < j < |delays| ==> delays[i] <= delays[j]
        decreases maxRetryCnt - curRetryCnt
      {
        var d := StartReconnect();
        if d.None? {
          return;
        }
        DelayStep(|delays|, minDelay, maxDelay, delayPolicy);
        DelaysGrow(|delays|, minDelay, maxDelay, delayPolicy);
        FollowsWhen(|delays| + 1, minDelay, maxDelay, delayPolicy);
        delays := delays + [d.value];
      }
    }
  }
}
